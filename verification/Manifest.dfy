/** Plugin manifests and requirements (crates/outboard-core/src/manifest.rs and id.rs). */
module Manifest {
  import opened Common

  const MANIFEST_VERSION: nat := 1
  const FRAMEWORK_VERSION := Version("0.1.0")
  const PROTOCOL_VERSION := Version("1.0.0")

  datatype PluginId = PluginId(ns: string, kind: string, name: string)

  datatype ExecutionMode = OneShot | Worker

  datatype InterfaceManifest = InterfaceManifest(id: string, version: Version)

  datatype Capability = Capability(id: string, version: Option<Version>, properties: map<string, Json>)

  /** `details` is what no check looks at: description, home page, control flags, metadata. */
  datatype Manifest = Manifest(
    manifestVersion: nat,
    id: PluginId,
    version: Version,
    framework: VersionReq,
    workerProtocol: VersionReq,
    interfaces: seq<InterfaceManifest>,
    execution: seq<ExecutionMode>,
    capabilities: seq<Capability>,
    details: Json)

  datatype InterfaceRequirement = InterfaceRequirement(id: string, version: VersionReq)

  /** `properties` in the order of its keys. */
  datatype CapabilityRequirement = CapabilityRequirement(
    id: string, version: Option<VersionReq>, properties: seq<(string, Json)>)

  datatype PluginRequirement = PluginRequirement(
    kind: string,
    name: Option<string>,
    iface: Option<InterfaceRequirement>,
    capabilities: seq<CapabilityRequirement>,
    execution: Option<ExecutionMode>)

  // ---------- Validation ----------

  predicate IdChar(c: char, allowDot: bool) {
    || 'a' <= c <= 'z' || 'A' <= c <= 'Z' || '0' <= c <= '9'
    || c == '-' || c == '_' || (allowDot && c == '.')
  }

  predicate ValidIdentifier(s: string, allowDot: bool) {
    && s != "" && s[0] != '-' && s[|s| - 1] != '-'
    && forall i :: 0 <= i < |s| ==> IdChar(s[i], allowDot)
  }

  datatype ManifestError =
    | UnsupportedManifestVersion(version: nat)
    | MissingExecutionMode
    | DuplicateInterface(id: string)
    | DuplicateCapability(id: string)
    | InvalidIdentifier(id: string)

  predicate Distinct(ids: seq<string>) {
    forall i, j :: 0 <= i < j < |ids| ==> ids[i] != ids[j]
  }

  function InterfaceIds(m: Manifest): seq<string> {
    seq(|m.interfaces|, i requires 0 <= i < |m.interfaces| => m.interfaces[i].id)
  }

  function CapabilityIds(m: Manifest): seq<string> {
    seq(|m.capabilities|, i requires 0 <= i < |m.capabilities| => m.capabilities[i].id)
  }

  predicate AllValid(ids: seq<string>) {
    forall i :: 0 <= i < |ids| ==> ValidIdentifier(ids[i], true)
  }

  predicate ValidManifest(m: Manifest) {
    && m.manifestVersion == MANIFEST_VERSION
    && ValidIdentifier(m.id.ns, false) && ValidIdentifier(m.id.kind, false) && ValidIdentifier(m.id.name, false)
    && m.execution != []
    && AllValid(InterfaceIds(m)) && Distinct(InterfaceIds(m))
    && AllValid(CapabilityIds(m)) && Distinct(CapabilityIds(m))
  }

  datatype IdProblem = Malformed(id: string) | Repeated(id: string)

  /** The first identifier from the k-th on that is malformed or came before. */
  function FirstProblem(ids: seq<string>, k: nat): Option<IdProblem>
    requires k <= |ids|
    decreases |ids| - k
  {
    if k == |ids| then None
    else if !ValidIdentifier(ids[k], true) then Some(Malformed(ids[k]))
    else if ids[k] in ids[..k] then Some(Repeated(ids[k]))
    else FirstProblem(ids, k + 1)
  }

  /** The validation loop over identifiers: the first one that is malformed or seen before. */
  method CheckIds(ids: seq<string>) returns (problem: Option<IdProblem>)
    ensures problem == FirstProblem(ids, 0)
    ensures problem.None? <==> AllValid(ids) && Distinct(ids)
    ensures problem.Some? ==> exists k ::
      && 0 <= k < |ids| && problem.value.id == ids[k]
      && AllValid(ids[..k]) && Distinct(ids[..k])
      && (if problem.value.Malformed? then !ValidIdentifier(ids[k], true)
          else ValidIdentifier(ids[k], true) && ids[k] in ids[..k])
  {
    var seen: set<string> := {};
    for k := 0 to |ids|
      invariant seen == set i | 0 <= i < k :: ids[i]
      invariant FirstProblem(ids, 0) == FirstProblem(ids, k)
      invariant AllValid(ids[..k]) && Distinct(ids[..k])
    {
      if !ValidIdentifier(ids[k], true) {
        return Some(Malformed(ids[k]));
      }
      if ids[k] in seen {
        var j :| 0 <= j < k && ids[j] == ids[k];
        assert ids[..k][j] == ids[k];
        return Some(Repeated(ids[k]));
      }
      seen := seen + {ids[k]};
    }
    assert ids[..|ids|] == ids;
    problem := None;
  }

  function ProblemError(p: IdProblem, repeated: ManifestError): ManifestError {
    if p.Malformed? then InvalidIdentifier(p.id) else repeated
  }

  /** The error of the first check that fails. */
  function ManifestProblem(m: Manifest): Option<ManifestError> {
    if m.manifestVersion != MANIFEST_VERSION then Some(UnsupportedManifestVersion(m.manifestVersion))
    else if !ValidIdentifier(m.id.ns, false) then Some(InvalidIdentifier(m.id.ns))
    else if !ValidIdentifier(m.id.kind, false) then Some(InvalidIdentifier(m.id.kind))
    else if !ValidIdentifier(m.id.name, false) then Some(InvalidIdentifier(m.id.name))
    else if m.execution == [] then Some(MissingExecutionMode)
    else
      var interfaces, capabilities := FirstProblem(InterfaceIds(m), 0), FirstProblem(CapabilityIds(m), 0);
      if interfaces.Some? then Some(ProblemError(interfaces.value, DuplicateInterface(interfaces.value.id)))
      else if capabilities.Some? then Some(ProblemError(capabilities.value, DuplicateCapability(capabilities.value.id)))
      else None
  }

  method Validate(m: Manifest) returns (r: Result<(), ManifestError>)
    ensures r.Ok? <==> ValidManifest(m)
    ensures ManifestProblem(m) == if r.Ok? then None else Some(r.error)
    ensures r.Err? && r.error.InvalidIdentifier? ==>
      || (r.error.id in {m.id.ns, m.id.kind, m.id.name} && !ValidIdentifier(r.error.id, false))
      || (r.error.id in InterfaceIds(m) + CapabilityIds(m) && !ValidIdentifier(r.error.id, true))
    ensures r == Err(UnsupportedManifestVersion(m.manifestVersion)) <==> m.manifestVersion != MANIFEST_VERSION
    ensures r == Err(MissingExecutionMode) ==> m.execution == []
    ensures r.Err? && r.error.DuplicateInterface? ==>
      m.execution != [] && r.error.id in InterfaceIds(m) && !Distinct(InterfaceIds(m))
    ensures r.Err? && r.error.DuplicateCapability? ==>
      && AllValid(InterfaceIds(m)) && Distinct(InterfaceIds(m))
      && r.error.id in CapabilityIds(m) && !Distinct(CapabilityIds(m))
  {
    if m.manifestVersion != MANIFEST_VERSION {
      return Err(UnsupportedManifestVersion(m.manifestVersion));
    }
    if !ValidIdentifier(m.id.ns, false) {
      return Err(InvalidIdentifier(m.id.ns));
    }
    if !ValidIdentifier(m.id.kind, false) {
      return Err(InvalidIdentifier(m.id.kind));
    }
    if !ValidIdentifier(m.id.name, false) {
      return Err(InvalidIdentifier(m.id.name));
    }
    if m.execution == [] {
      return Err(MissingExecutionMode);
    }
    var interfaces := CheckIds(InterfaceIds(m));
    if interfaces.Some? {
      return Err(if interfaces.value.Malformed? then InvalidIdentifier(interfaces.value.id)
                 else DuplicateInterface(interfaces.value.id));
    }
    var capabilities := CheckIds(CapabilityIds(m));
    if capabilities.Some? {
      return Err(if capabilities.value.Malformed? then InvalidIdentifier(capabilities.value.id)
                 else DuplicateCapability(capabilities.value.id));
    }
    r := Ok(());
  }

  // ---------- Lookups ----------

  function FindInterface(xs: seq<InterfaceManifest>, id: string): (r: Option<InterfaceManifest>)
    ensures r.Some? ==> r.value in xs && r.value.id == id
    ensures r.None? <==> forall i :: 0 <= i < |xs| ==> xs[i].id != id
  {
    if xs == [] then None else if xs[0].id == id then Some(xs[0]) else FindInterface(xs[1..], id)
  }

  /** `find` stops at the first. */
  lemma {:induction false} FoundInterfaceIsFirst(xs: seq<InterfaceManifest>, id: string) returns (i: nat)
    requires FindInterface(xs, id).Some?
    ensures i < |xs| && FindInterface(xs, id) == Some(xs[i]) && xs[i].id == id
    ensures forall j :: 0 <= j < i ==> xs[j].id != id
  {
    i := 0;
    if xs[0].id != id {
      var n := FoundInterfaceIsFirst(xs[1..], id);
      i := n + 1;
      assert forall j :: 1 <= j < i ==> xs[j] == xs[1..][j - 1];
    }
  }

  lemma {:induction false} FoundCapabilityIsFirst(cs: seq<Capability>, id: string) returns (i: nat)
    requires FindCapability(cs, id).Some?
    ensures i < |cs| && FindCapability(cs, id) == Some(cs[i]) && cs[i].id == id
    ensures forall j :: 0 <= j < i ==> cs[j].id != id
  {
    i := 0;
    if cs[0].id != id {
      var n := FoundCapabilityIsFirst(cs[1..], id);
      i := n + 1;
      assert forall j :: 1 <= j < i ==> cs[j] == cs[1..][j - 1];
    }
  }

  function FindCapability(cs: seq<Capability>, id: string): (r: Option<Capability>)
    ensures r.Some? ==> r.value in cs && r.value.id == id
    ensures r.None? <==> forall i :: 0 <= i < |cs| ==> cs[i].id != id
  {
    if cs == [] then None else if cs[0].id == id then Some(cs[0]) else FindCapability(cs[1..], id)
  }

  predicate Supports(m: Manifest, mode: ExecutionMode) {
    mode in m.execution
  }

  // ---------- Compatibility ----------

  datatype Issue =
    | Framework(accepts: VersionReq, host: Version)
    | WorkerProtocol(accepts: VersionReq, host: Version)
    | WrongName(expected: string, actual: string)
    | WrongKind(expected: string, actual: string)
    | NoExecutionMode(mode: ExecutionMode)
    | MissingInterface(id: string)
    | InterfaceVersion(id: string, required: VersionReq, provided: Version)
    | MissingCapability(id: string)
    | CapabilityVersion(id: string, required: VersionReq, found: Option<Version>)
    | CapabilityProperty(id: string, key: string, wanted: Json, has: Option<Json>)

  predicate PropertyMet(c: Capability, p: (string, Json)) {
    p.0 in c.properties && c.properties[p.0] == p.1
  }

  predicate CapabilityMet(matches: Matches, m: Manifest, r: CapabilityRequirement) {
    match FindCapability(m.capabilities, r.id)
    case None => false
    case Some(c) =>
      && (r.version.Some? ==> c.version.Some? && matches(r.version.value, c.version.value))
      && forall i :: 0 <= i < |r.properties| ==> PropertyMet(c, r.properties[i])
  }

  predicate InterfaceMet(matches: Matches, m: Manifest, r: InterfaceRequirement) {
    var found := FindInterface(m.interfaces, r.id);
    found.Some? && matches(r.version, found.value.version)
  }

  /** What a requirement asks of a manifest. */
  predicate Compatible(matches: Matches, m: Manifest, req: PluginRequirement) {
    && matches(m.framework, FRAMEWORK_VERSION)
    && (req.name.Some? ==> m.id.name == req.name.value)
    && m.id.kind == req.kind
    && (req.execution.Some? ==> Supports(m, req.execution.value))
    && (req.iface.Some? ==> InterfaceMet(matches, m, req.iface.value))
    && (forall i :: 0 <= i < |req.capabilities| ==> CapabilityMet(matches, m, req.capabilities[i]))
    && (req.execution == Some(Worker) ==> matches(m.workerProtocol, PROTOCOL_VERSION))
  }

  // ---------- The issues reported ----------

  function PropertyIssues(id: string, c: Capability, ps: seq<(string, Json)>): seq<Issue> {
    if ps == [] then []
    else
      var (key, wanted) := ps[|ps| - 1];
      var has := if key in c.properties then Some(c.properties[key]) else None;
      PropertyIssues(id, c, ps[..|ps| - 1])
      + if has == Some(wanted) then [] else [CapabilityProperty(id, key, wanted, has)]
  }

  function CapabilityIssuesOf(matches: Matches, m: Manifest, r: CapabilityRequirement): seq<Issue> {
    match FindCapability(m.capabilities, r.id)
    case None => [MissingCapability(r.id)]
    case Some(c) =>
      (if r.version.Some? && (c.version.None? || !matches(r.version.value, c.version.value))
       then [CapabilityVersion(r.id, r.version.value, c.version)] else [])
      + PropertyIssues(r.id, c, r.properties)
  }

  function AllCapabilityIssues(matches: Matches, m: Manifest, rs: seq<CapabilityRequirement>): seq<Issue> {
    if rs == [] then []
    else AllCapabilityIssues(matches, m, rs[..|rs| - 1]) + CapabilityIssuesOf(matches, m, rs[|rs| - 1])
  }

  function InterfaceIssues(matches: Matches, m: Manifest, r: InterfaceRequirement): seq<Issue> {
    match FindInterface(m.interfaces, r.id)
    case None => [MissingInterface(r.id)]
    case Some(i) =>
      if matches(r.version, i.version) then [] else [InterfaceVersion(r.id, r.version, i.version)]
  }

  function IdentityIssues(matches: Matches, m: Manifest, req: PluginRequirement): seq<Issue> {
    (if matches(m.framework, FRAMEWORK_VERSION) then [] else [Framework(m.framework, FRAMEWORK_VERSION)])
    + (if req.name.Some? && m.id.name != req.name.value then [WrongName(req.name.value, m.id.name)] else [])
    + (if m.id.kind != req.kind then [WrongKind(req.kind, m.id.kind)] else [])
    + (if req.execution.Some? && !Supports(m, req.execution.value) then [NoExecutionMode(req.execution.value)] else [])
  }

  function Issues(matches: Matches, m: Manifest, req: PluginRequirement): seq<Issue> {
    IdentityIssues(matches, m, req)
    + (if req.iface.Some? then InterfaceIssues(matches, m, req.iface.value) else [])
    + AllCapabilityIssues(matches, m, req.capabilities)
    + (if req.execution == Some(Worker) && !matches(m.workerProtocol, PROTOCOL_VERSION)
       then [WorkerProtocol(m.workerProtocol, PROTOCOL_VERSION)] else [])
  }

  lemma {:induction false} NoPropertyIssues(id: string, c: Capability, ps: seq<(string, Json)>)
    ensures PropertyIssues(id, c, ps) == [] <==> forall i :: 0 <= i < |ps| ==> PropertyMet(c, ps[i])
  {
    if ps != [] {
      var n := |ps| - 1;
      NoPropertyIssues(id, c, ps[..n]);
      assert forall i :: 0 <= i < n ==> ps[..n][i] == ps[i];
    }
  }

  lemma {:induction false} NoIssueOfCapability(matches: Matches, m: Manifest, r: CapabilityRequirement)
    ensures CapabilityIssuesOf(matches, m, r) == [] <==> CapabilityMet(matches, m, r)
  {
    var found := FindCapability(m.capabilities, r.id);
    if found.Some? {
      NoPropertyIssues(r.id, found.value, r.properties);
    }
  }

  lemma {:induction false} NoCapabilityIssues(matches: Matches, m: Manifest, rs: seq<CapabilityRequirement>)
    ensures AllCapabilityIssues(matches, m, rs) == [] <==>
      forall i :: 0 <= i < |rs| ==> CapabilityMet(matches, m, rs[i])
  {
    var issues := AllCapabilityIssues(matches, m, rs);
    forall i | 0 <= i < |rs| && issues == [] ensures CapabilityMet(matches, m, rs[i]) {
      NoIssueOfCapability(matches, m, rs[i]);
      var own := CapabilityIssuesOf(matches, m, rs[i]);
      if own != [] {
        IssueIsReported(matches, m, rs, i, own[0]);
      }
    }
    if issues != [] {
      var i := IssueHasSource(matches, m, rs, issues[0]);
      NoIssueOfCapability(matches, m, rs[i]);
    }
  }

  /** Nothing is reported exactly when the manifest is compatible. */
  lemma {:induction false} NoIssuesIffCompatible(matches: Matches, m: Manifest, req: PluginRequirement)
    ensures Issues(matches, m, req) == [] <==> Compatible(matches, m, req)
  {
    NoCapabilityIssues(matches, m, req.capabilities);
  }

  /** Which issue is reported for which defect. */
  ghost predicate IsDefect(matches: Matches, m: Manifest, req: PluginRequirement, issue: Issue) {
    match issue
    case Framework(accepts, host) =>
      accepts == m.framework && host == FRAMEWORK_VERSION && !matches(m.framework, FRAMEWORK_VERSION)
    case WorkerProtocol(accepts, host) =>
      && req.execution == Some(Worker)
      && accepts == m.workerProtocol && host == PROTOCOL_VERSION && !matches(m.workerProtocol, PROTOCOL_VERSION)
    case WrongName(expected, actual) => req.name == Some(expected) && actual == m.id.name && expected != actual
    case WrongKind(expected, actual) => req.kind == expected && actual == m.id.kind && expected != actual
    case NoExecutionMode(mode) => req.execution == Some(mode) && mode !in m.execution
    case MissingInterface(id) =>
      && req.iface.Some? && req.iface.value.id == id
      && forall i :: 0 <= i < |m.interfaces| ==> m.interfaces[i].id != id
    case InterfaceVersion(id, required, provided) =>
      && req.iface == Some(InterfaceRequirement(id, required))
      && FindInterface(m.interfaces, id) == Some(InterfaceManifest(id, provided)) && !matches(required, provided)
    case _ =>
      exists i :: 0 <= i < |req.capabilities| && IsCapabilityDefect(matches, m, req.capabilities[i], issue)
  }

  ghost predicate IsCapabilityDefect(matches: Matches, m: Manifest, r: CapabilityRequirement, issue: Issue) {
    var found := FindCapability(m.capabilities, r.id);
    match issue
    case MissingCapability(id) => r.id == id && found.None?
    case CapabilityVersion(id, required, version) =>
      && r.id == id && r.version == Some(required) && found.Some? && found.value.version == version
      && (version.Some? ==> !matches(required, version.value))
    case CapabilityProperty(id, key, wanted, has) =>
      && r.id == id && found.Some? && (key, wanted) in r.properties && has != Some(wanted)
      && (if key in found.value.properties then has == Some(found.value.properties[key]) else has == None)
    case _ => false
  }

  lemma {:induction false} PropertyIssuesAre(id: string, c: Capability, ps: seq<(string, Json)>, issue: Issue)
    ensures issue in PropertyIssues(id, c, ps) <==>
      && issue.CapabilityProperty? && issue.id == id && (issue.key, issue.wanted) in ps
      && issue.has != Some(issue.wanted)
      && (if issue.key in c.properties then issue.has == Some(c.properties[issue.key]) else issue.has == None)
  {
    if ps != [] {
      var n := |ps| - 1;
      PropertyIssuesAre(id, c, ps[..n], issue);
      assert forall p :: p in ps <==> p in ps[..n] || p == ps[n];
    }
  }

  lemma {:induction false} CapabilityIssuesAre(matches: Matches, m: Manifest, r: CapabilityRequirement, issue: Issue)
    ensures issue in CapabilityIssuesOf(matches, m, r) <==> IsCapabilityDefect(matches, m, r, issue)
  {
    var found := FindCapability(m.capabilities, r.id);
    if found.Some? {
      PropertyIssuesAre(r.id, found.value, r.properties, issue);
    }
  }

  lemma {:induction false} AllCapabilityIssuesAre(matches: Matches, m: Manifest, rs: seq<CapabilityRequirement>,
                                                  issue: Issue)
    ensures issue in AllCapabilityIssues(matches, m, rs) <==>
      exists i :: 0 <= i < |rs| && IsCapabilityDefect(matches, m, rs[i], issue)
  {
    if i :| 0 <= i < |rs| && IsCapabilityDefect(matches, m, rs[i], issue) {
      CapabilityIssuesAre(matches, m, rs[i], issue);
      IssueIsReported(matches, m, rs, i, issue);
    }
    if issue in AllCapabilityIssues(matches, m, rs) {
      var i := IssueHasSource(matches, m, rs, issue);
      CapabilityIssuesAre(matches, m, rs[i], issue);
    }
  }

  lemma {:induction false} IssueIsReported(matches: Matches, m: Manifest, rs: seq<CapabilityRequirement>, i: nat,
                                           issue: Issue)
    requires i < |rs| && issue in CapabilityIssuesOf(matches, m, rs[i])
    ensures issue in AllCapabilityIssues(matches, m, rs)
  {
    if i < |rs| - 1 {
      IssueIsReported(matches, m, rs[..|rs| - 1], i, issue);
    }
  }

  lemma {:induction false} IssueHasSource(matches: Matches, m: Manifest, rs: seq<CapabilityRequirement>, issue: Issue)
    returns (i: nat)
    requires issue in AllCapabilityIssues(matches, m, rs)
    ensures i < |rs| && issue in CapabilityIssuesOf(matches, m, rs[i])
  {
    i := |rs| - 1;
    if issue !in CapabilityIssuesOf(matches, m, rs[i]) {
      i := IssueHasSource(matches, m, rs[..i], issue);
    }
  }

  /** The place of an issue in a report. */
  function Place(issue: Issue): nat {
    match issue
    case Framework(_, _) => 0
    case WrongName(_, _) => 1
    case WrongKind(_, _) => 2
    case NoExecutionMode(_) => 3
    case MissingInterface(_) => 4
    case InterfaceVersion(_, _, _) => 4
    case WorkerProtocol(_, _) => 6
    case _ => 5
  }

  ghost predicate InPlace(issues: seq<Issue>, from: nat, to: nat) {
    && (forall issue :: issue in issues ==> from <= Place(issue) <= to)
    && forall i, j :: 0 <= i < j < |issues| ==> Place(issues[i]) <= Place(issues[j])
  }

  lemma {:induction false} InPlaceConcat(a: seq<Issue>, b: seq<Issue>, from: nat, mid: nat, to: nat)
    requires InPlace(a, from, mid) && InPlace(b, mid, to) && from <= mid <= to
    ensures InPlace(a + b, from, to)
  {
    forall i, j | 0 <= i < j < |a + b| ensures Place((a + b)[i]) <= Place((a + b)[j]) {
      assert (a + b)[i] in (if i < |a| then a else b) && (a + b)[j] in (if j < |a| then a else b);
    }
  }

  lemma {:induction false} CapabilityIssuesInPlace(matches: Matches, m: Manifest, rs: seq<CapabilityRequirement>)
    ensures InPlace(AllCapabilityIssues(matches, m, rs), 5, 5)
  {
    var issues := AllCapabilityIssues(matches, m, rs);
    forall issue | issue in issues ensures Place(issue) == 5 {
      AllCapabilityIssuesAre(matches, m, rs, issue);
    }
    assert forall i :: 0 <= i < |issues| ==> issues[i] in issues;
  }

  lemma {:induction false} IdentityIssuesAre(matches: Matches, m: Manifest, req: PluginRequirement, issue: Issue)
    ensures issue in IdentityIssues(matches, m, req) <==> IsDefect(matches, m, req, issue) && Place(issue) <= 3
  {
  }

  lemma {:induction false} InterfaceIssuesAre(matches: Matches, m: Manifest, req: PluginRequirement, issue: Issue)
    requires req.iface.Some?
    ensures issue in InterfaceIssues(matches, m, req.iface.value) <==>
      IsDefect(matches, m, req, issue) && Place(issue) == 4
  {
  }

  function ProtocolIssues(matches: Matches, m: Manifest, req: PluginRequirement): seq<Issue> {
    if req.execution == Some(Worker) && !matches(m.workerProtocol, PROTOCOL_VERSION)
    then [WorkerProtocol(m.workerProtocol, PROTOCOL_VERSION)] else []
  }

  lemma {:induction false} IssueIsDefect(matches: Matches, m: Manifest, req: PluginRequirement, issue: Issue)
    ensures issue in Issues(matches, m, req) <==> IsDefect(matches, m, req, issue)
  {
    var identity := IdentityIssues(matches, m, req);
    var iface := if req.iface.Some? then InterfaceIssues(matches, m, req.iface.value) else [];
    var capabilities := AllCapabilityIssues(matches, m, req.capabilities);
    var protocol := ProtocolIssues(matches, m, req);
    assert Issues(matches, m, req) == identity + iface + capabilities + protocol;
    IdentityIssuesAre(matches, m, req, issue);
    assert issue in iface <==> IsDefect(matches, m, req, issue) && Place(issue) == 4 by {
      if req.iface.Some? {
        InterfaceIssuesAre(matches, m, req, issue);
      }
    }
    AllCapabilityIssuesAre(matches, m, req.capabilities, issue);
    assert issue in capabilities <==> IsDefect(matches, m, req, issue) && Place(issue) == 5;
    assert issue in protocol <==> IsDefect(matches, m, req, issue) && Place(issue) == 6;
  }

  lemma {:induction false} IdentityIssuesInPlace(matches: Matches, m: Manifest, req: PluginRequirement)
    ensures InPlace(IdentityIssues(matches, m, req), 0, 4)
  {
  }

  lemma {:induction false} InterfaceIssuesInPlace(matches: Matches, m: Manifest, req: PluginRequirement)
    ensures InPlace(if req.iface.Some? then InterfaceIssues(matches, m, req.iface.value) else [], 4, 4)
  {
  }

  lemma {:induction false} IssuesInPlace(matches: Matches, m: Manifest, req: PluginRequirement)
    ensures InPlace(Issues(matches, m, req), 0, 6)
  {
    var identity := IdentityIssues(matches, m, req);
    var iface := if req.iface.Some? then InterfaceIssues(matches, m, req.iface.value) else [];
    var capabilities := AllCapabilityIssues(matches, m, req.capabilities);
    var protocol := ProtocolIssues(matches, m, req);
    assert Issues(matches, m, req) == identity + iface + capabilities + protocol;
    IdentityIssuesInPlace(matches, m, req);
    InterfaceIssuesInPlace(matches, m, req);
    CapabilityIssuesInPlace(matches, m, req.capabilities);
    InPlaceConcat(identity, iface, 0, 4, 4);
    InPlaceConcat(identity + iface, capabilities, 0, 4, 5);
    InPlaceConcat(identity + iface + capabilities, protocol, 0, 5, 6);
  }

  /** A report holds exactly the defects of the manifest, those of the requirement's parts in order. */
  lemma {:induction false} IssuesAreTheDefects(matches: Matches, m: Manifest, req: PluginRequirement)
    ensures forall issue :: issue in Issues(matches, m, req) <==> IsDefect(matches, m, req, issue)
    ensures InPlace(Issues(matches, m, req), 0, 6)
  {
    forall issue ensures issue in Issues(matches, m, req) <==> IsDefect(matches, m, req, issue) {
      IssueIsDefect(matches, m, req, issue);
    }
    IssuesInPlace(matches, m, req);
  }

  method CapabilityIssues(matches: Matches, m: Manifest, r: CapabilityRequirement) returns (out: seq<Issue>)
    ensures out == CapabilityIssuesOf(matches, m, r)
  {
    out := [];
    match FindCapability(m.capabilities, r.id) {
      case None => out := out + [MissingCapability(r.id)];
      case Some(c) =>
        if r.version.Some? && (c.version.None? || !matches(r.version.value, c.version.value)) {
          out := out + [CapabilityVersion(r.id, r.version.value, c.version)];
        }
        ghost var before := out;
        for i := 0 to |r.properties|
          invariant out == before + PropertyIssues(r.id, c, r.properties[..i])
        {
          var (key, wanted) := r.properties[i];
          assert r.properties[..i + 1][..i] == r.properties[..i];
          var has := if key in c.properties then Some(c.properties[key]) else None;
          if has != Some(wanted) {
            out := out + [CapabilityProperty(r.id, key, wanted, has)];
          }
        }
        assert r.properties[..|r.properties|] == r.properties;
    }
  }

  method CheckIdentity(matches: Matches, m: Manifest, req: PluginRequirement) returns (out: seq<Issue>)
    ensures out == IdentityIssues(matches, m, req)
    ensures out == [] <==>
      && matches(m.framework, FRAMEWORK_VERSION) && m.id.kind == req.kind
      && (req.name.Some? ==> m.id.name == req.name.value)
      && (req.execution.Some? ==> Supports(m, req.execution.value))
  {
    out := [];
    if !matches(m.framework, FRAMEWORK_VERSION) {
      out := out + [Framework(m.framework, FRAMEWORK_VERSION)];
    }
    if req.name.Some? && m.id.name != req.name.value {
      out := out + [WrongName(req.name.value, m.id.name)];
    }
    if m.id.kind != req.kind {
      out := out + [WrongKind(req.kind, m.id.kind)];
    }
    if req.execution.Some? && !Supports(m, req.execution.value) {
      out := out + [NoExecutionMode(req.execution.value)];
    }
  }

  method CheckCapabilities(matches: Matches, m: Manifest, rs: seq<CapabilityRequirement>) returns (out: seq<Issue>)
    ensures out == AllCapabilityIssues(matches, m, rs)
  {
    out := [];
    for i := 0 to |rs|
      invariant out == AllCapabilityIssues(matches, m, rs[..i])
    {
      var issues := CapabilityIssues(matches, m, rs[i]);
      assert rs[..i + 1][..i] == rs[..i];
      out := out + issues;
    }
    assert rs[..|rs|] == rs;
  }

  /** `compatibility_issues`. */
  method CompatibilityIssues(matches: Matches, m: Manifest, req: PluginRequirement) returns (out: seq<Issue>)
    ensures out == Issues(matches, m, req)
    ensures out == [] <==> Compatible(matches, m, req)
  {
    out := CheckIdentity(matches, m, req);
    out := out + (if req.iface.Some? then InterfaceIssues(matches, m, req.iface.value) else []);
    var issues := CheckCapabilities(matches, m, req.capabilities);
    out := out + issues;
    var protocolRefused := req.execution == Some(Worker) && !matches(m.workerProtocol, PROTOCOL_VERSION);
    out := out + (if protocolRefused then [WorkerProtocol(m.workerProtocol, PROTOCOL_VERSION)] else []);
    NoIssuesIffCompatible(matches, m, req);
  }

  /** Asking for one more capability only rules manifests out. */
  lemma {:induction false} MoreCapabilitiesFewerManifests(matches: Matches, m: Manifest, req: PluginRequirement,
                                                          c: CapabilityRequirement)
    requires Compatible(matches, m, req.(capabilities := req.capabilities + [c]))
    ensures Compatible(matches, m, req)
  {
    forall i | 0 <= i < |req.capabilities| ensures CapabilityMet(matches, m, req.capabilities[i]) {
      assert (req.capabilities + [c])[i] == req.capabilities[i];
    }
  }
}
