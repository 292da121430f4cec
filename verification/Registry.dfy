/** A registry from its settings to a running worker (crates/outboard-core/src/registry.rs). */
module Registry {
  import opened Common
  import opened Manifest
  import opened Discovery
  import opened Cache
  import opened Resolution
  import opened Handshake

  /** What a registry is built with; `overrides` are those of the kind asked for. */
  datatype Settings = Settings(
    ns: string,
    explicit: seq<Path>,
    env: Option<(string, seq<Path>)>,
    path: Option<seq<Path>>,
    overrides: seq<(string, Path)>)

  ghost function Roots(s: Settings, w: World): seq<SearchRoot> {
    Deduplicated(w.canonical, RawRoots(s.explicit, s.env, s.path))
  }

  /** The first-wins selection of everything the scan finds for a kind. */
  ghost function Offered(s: Settings, w: World, fs: FileSystem, kind: string): seq<Candidate> {
    FirstWins(Candidates(Scanned(fs, s.ns, kind, Roots(s, w), s.overrides)))
  }

  /** What is offered comes from the settings: an override, or an executable of its name in a directory
      of one of the three lists. */
  ghost predicate FromSettings(s: Settings, fs: FileSystem, kind: string, c: Candidate) {
    && c.id.ns == s.ns && c.id.kind == kind
    && match c.source
       case Override => exists i :: 0 <= i < |s.overrides| && s.overrides[i] == (c.id.name, c.path)
       case ExplicitPath => exists p :: p in s.explicit && LiesIn(fs, p, s.ns, kind, c)
       case Environment(variable) =>
         s.env.Some? && s.env.value.0 == variable && exists p :: p in s.env.value.1 && LiesIn(fs, p, s.ns, kind, c)
       case PathVariable => s.path.Some? && exists p :: p in s.path.value && LiesIn(fs, p, s.ns, kind, c)
  }

  ghost predicate LiesIn(fs: FileSystem, p: Path, ns: string, kind: string, c: Candidate) {
    fs(p).Listing? && exists e :: e in fs(p).entries && IsPluginFile(ns, kind, e, c.id.name) && e.path == c.path
  }

  lemma {:induction false} FoundInARoot(fs: FileSystem, ns: string, kind: string, roots: seq<SearchRoot>, f: Found)
    returns (r: SearchRoot)
    requires f in InRoots(fs, ns, kind, roots)
    ensures r in roots && f in InRoot(fs, ns, kind, r)
  {
    var n := |roots| - 1;
    if f in InRoot(fs, ns, kind, roots[n]) {
      r := roots[n];
    } else {
      r := FoundInARoot(fs, ns, kind, roots[..n], f);
    }
  }

  lemma {:induction false} FoundFromSettings(s: Settings, w: World, fs: FileSystem, kind: string, f: Found, n: nat)
    requires f in Scanned(fs, s.ns, kind, Roots(s, w), s.overrides)
    ensures FromSettings(s, fs, kind, Candidate(f.id, f.path, f.source, n))
  {
    var overrides := InOverrides(s.ns, kind, s.overrides);
    if f in overrides {
      var i :| 0 <= i < |overrides| && overrides[i] == f;
      assert s.overrides[i] == (f.id.name, f.path);
    } else {
      var r := FoundInARoot(fs, s.ns, kind, Roots(s, w), f);
      RootYields(fs, s.ns, kind, r);
      RootsSearchAll(w.canonical, s.explicit, s.env, s.path);
      assert LiesIn(fs, r.path, s.ns, kind, Candidate(f.id, f.path, f.source, n));
    }
  }

  /** Whatever can be resolved comes from the settings. */
  lemma {:induction false} OfferedAreFromSettings(s: Settings, w: World, fs: FileSystem, kind: string)
    ensures forall c :: c in Offered(s, w, fs, kind) ==> FromSettings(s, fs, kind, c)
  {
    var found := Scanned(fs, s.ns, kind, Roots(s, w), s.overrides);
    FirstWinsIsExact(Candidates(found));
    forall c | c in Offered(s, w, fs, kind) ensures FromSettings(s, fs, kind, c) {
      var i :| 0 <= i < |found| && Candidates(found)[i] == c;
      FoundFromSettings(s, w, fs, kind, found[i], i);
    }
  }

  /** And what a directory of any of the three lists offers is offered, from that list or a better one. */
  lemma {:induction false} ListedIsOffered(s: Settings, w: World, fs: FileSystem, kind: string, p: Path, tier: nat,
                                           name: string)
    requires forall a, b, n :: SameFile(w.canonical, a, b) && Offers(fs(a), Prefix(s.ns, kind), n) ==>
      Offers(fs(b), Prefix(s.ns, kind), n)
    requires Listed(s.explicit, s.env, s.path, p, tier) && Offers(fs(p), Prefix(s.ns, kind), name)
    ensures exists c :: c in Offered(s, w, fs, kind) && c.id == PluginId(s.ns, kind, name) && Tier(c.source) <= tier
  {
    NoTierIsLost(w.canonical, fs, s.ns, kind, s.explicit, s.env, s.path, s.overrides, p, tier, name);
  }

  /** The first override of a name is offered before anything else of that name. */
  lemma {:induction false} OverrideIsOffered(s: Settings, w: World, fs: FileSystem, kind: string, i: nat)
    requires i < |s.overrides| && forall j :: 0 <= j < i ==> s.overrides[j].0 != s.overrides[i].0
    ensures Candidate(PluginId(s.ns, kind, s.overrides[i].0), s.overrides[i].1, Override, i) in Offered(s, w, fs, kind)
  {
    var cs := Candidates(Scanned(fs, s.ns, kind, Roots(s, w), s.overrides));
    FirstWinsIsExact(cs);
    assert cs[i] == Candidate(PluginId(s.ns, kind, s.overrides[i].0), s.overrides[i].1, Override, i);
    assert First(cs, i);
  }

  datatype Outcome = ScanFailed | Unmatched(rejections: seq<Rejection>) | Selected(plugin: Inspected)

  /** The one candidate that none beats. */
  ghost predicate TheBest(q: Query, selected: seq<Candidate>, c: Candidate) {
    Best(q, selected, c) && forall d :: Best(q, selected, d) ==> d == c
  }

  lemma {:induction false} OfferedHaveOneBest(s: Settings, w: World, fs: FileSystem, kind: string, q: Query,
                                              c: Candidate)
    requires Best(q, Offered(s, w, fs, kind), c)
    ensures TheBest(q, Offered(s, w, fs, kind), c)
  {
    var selected := Offered(s, w, fs, kind);
    FirstWinsIsExact(Candidates(Scanned(fs, s.ns, kind, Roots(s, w), s.overrides)));
    forall d | Best(q, selected, d) ensures d == c {
      BestIsUnique(q, selected, c, d);
    }
  }

  /** `Registry::resolve_best`: the roots, the scan, and the choice through the cache. */
  method Resolve(ghost truth: Truth, cache: ManifestCache, w: World, fs: FileSystem, faults: Faults, ghost q: Query,
                 s: Settings, matches: Matches, score: Score, req: PluginRequirement)
    returns (r: Outcome)
    requires q == Query(matches, q.inspect, score, req) && InspectsIn(q, w)
    requires cache.Valid(truth) && CollisionFree(cache.hash) && LinkBlind(truth) && Faithful(truth, w)
    modifies cache`entries, cache.store
    ensures cache.Valid(truth)
    ensures r.ScanFailed? <==> AnyFailure(fs, Roots(s, w))
    ensures r.Selected? ==> TheBest(q, Offered(s, w, fs, req.kind), r.plugin.candidate)
    ensures r.Selected? ==> FromSettings(s, fs, req.kind, r.plugin.candidate)
    ensures r.Selected? ==> Fresh(w, r.plugin.candidate.id, r.plugin.candidate.path) == Ok(r.plugin.manifest)
    ensures r.Unmatched? ==> var selected := Offered(s, w, fs, req.kind);
      r.rejections == Rejections(q, selected) && forall i :: 0 <= i < |selected| ==> !Accepts(q, selected[i])
  {
    var roots := BuildRoots(w.canonical, s.explicit, s.env, s.path);
    var found := Discover(w.canonical, fs, s.ns, req.kind, roots, s.overrides);
    if found.None? {
      return ScanFailed;
    }
    var resolution := ResolveBest(truth, cache, w, faults, q, matches, score, req, found.value.selected);
    match resolution
    case NoMatch(rejections) => r := Unmatched(rejections);
    case Resolved(plugin) =>
      OfferedHaveOneBest(s, w, fs, req.kind, q, plugin.candidate);
      OfferedAreFromSettings(s, w, fs, req.kind);
      r := Selected(plugin);
  }

  datatype Session = NoSession(outcome: Outcome) | Spawned(plugin: Inspected, manifest: Result<Manifest, ClientError>)

  /** Resolving a worker and spawning it with the interface asked for: no handshake is ever refused. */
  method ResolveAndSpawn(ghost truth: Truth, cache: ManifestCache, w: World, fs: FileSystem, faults: Faults,
                         ghost q: Query,
                         s: Settings, matches: Matches, score: Score, req: PluginRequirement)
    returns (r: Session)
    requires q == Query(matches, q.inspect, score, req) && InspectsIn(q, w)
    requires cache.Valid(truth) && CollisionFree(cache.hash) && LinkBlind(truth) && Faithful(truth, w)
    requires matches(HOST_PROTOCOL, PROTOCOL_VERSION)
    requires req.execution == Some(Worker) && req.iface.Some?
    modifies cache`entries, cache.store
    ensures cache.Valid(truth)
    ensures r.Spawned? ==> r.manifest == Ok(r.plugin.manifest)
    ensures r.Spawned? ==> TheBest(q, Offered(s, w, fs, req.kind), r.plugin.candidate)
    ensures r.Spawned? ==> Fresh(w, r.plugin.candidate.id, r.plugin.candidate.path) == Ok(r.plugin.manifest)
    ensures r.NoSession? ==> !r.outcome.Selected?
    ensures r.NoSession? && r.outcome.Unmatched? ==> var selected := Offered(s, w, fs, req.kind);
      forall i :: 0 <= i < |selected| ==> !Accepts(q, selected[i])
  {
    var outcome := Resolve(truth, cache, w, fs, faults, q, s, matches, score, req);
    if !outcome.Selected? {
      return NoSession(outcome);
    }
    var m := outcome.plugin.manifest;
    var requested := [req.iface.value];
    var session := Spawn(matches, m, requested, m, PROTOCOL_VERSION);
    ResolvedHandshake(q, Offered(s, w, fs, req.kind), outcome.plugin.candidate, requested);
    r := Spawned(outcome.plugin, session);
  }
}
