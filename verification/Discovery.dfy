/**
 Plugin discovery (crates/outboard-core/src/discovery.rs): one ordered scan of overrides and
 search roots, in which the first candidate of an identity wins. The file system does not change
 during a scan.
*/
module Discovery {
  import opened Common
  import opened Manifest
  import Sorting

  type Path = string

  datatype Source = Override | ExplicitPath | Environment(variable: string) | PathVariable

  datatype SearchRoot = SearchRoot(path: Path, source: Source)

  datatype Candidate = Candidate(id: PluginId, path: Path, source: Source, precedence: nat)

  /** `canonicalize`: absent where it fails. */
  type Canonical = Path -> Option<Path>

  predicate SameFile(canonical: Canonical, a: Path, b: Path) {
    match (canonical(a), canonical(b))
    case (Some(x), Some(y)) => x == y
    case _ => a == b
  }

  lemma {:induction false} SameFileIsEquivalence(canonical: Canonical, a: Path, b: Path, c: Path)
    ensures SameFile(canonical, a, a)
    ensures SameFile(canonical, a, b) ==> SameFile(canonical, b, a)
    ensures SameFile(canonical, a, b) && SameFile(canonical, b, c) ==> SameFile(canonical, a, c)
  {
  }

  // ---------- Search roots ----------

  /** Higher tiers lose: override, explicit, environment, PATH. */
  function Tier(s: Source): nat {
    match s
    case Override => 0
    case ExplicitPath => 1
    case Environment(_) => 2
    case PathVariable => 3
  }

  /** The directories of each tier, in order, before duplicates are dropped. */
  function RawRoots(explicit: seq<Path>, env: Option<(string, seq<Path>)>, path: Option<seq<Path>>): seq<SearchRoot> {
    Roots(explicit, ExplicitPath)
    + (if env.Some? then Roots(env.value.1, Environment(env.value.0)) else [])
    + (if path.Some? then Roots(path.value, PathVariable) else [])
  }

  function Roots(paths: seq<Path>, source: Source): seq<SearchRoot> {
    seq(|paths|, i requires 0 <= i < |paths| => SearchRoot(paths[i], source))
  }

  /** No earlier root is the same directory. */
  ghost predicate Earliest(canonical: Canonical, raw: seq<SearchRoot>, i: nat)
    requires i < |raw|
  {
    forall j :: 0 <= j < i ==> !SameFile(canonical, raw[j].path, raw[i].path)
  }

  /** The earliest member of each class, in order. */
  ghost function Deduplicated(canonical: Canonical, raw: seq<SearchRoot>): seq<SearchRoot> {
    if raw == [] then []
    else
      var n := |raw| - 1;
      Deduplicated(canonical, raw[..n]) + if Earliest(canonical, raw, n) then [raw[n]] else []
  }

  /** Every given root has an earliest same directory, which is kept. */
  lemma {:induction false} Representative(canonical: Canonical, raw: seq<SearchRoot>, i: nat) returns (j: nat)
    requires i < |raw|
    ensures j <= i && Earliest(canonical, raw, j) && SameFile(canonical, raw[j].path, raw[i].path)
    ensures raw[j] in Deduplicated(canonical, raw)
    decreases i
  {
    if Earliest(canonical, raw, i) {
      j := i;
      DeduplicatedKeeps(canonical, raw, i);
    } else {
      var k :| 0 <= k < i && SameFile(canonical, raw[k].path, raw[i].path);
      j := Representative(canonical, raw, k);
      SameFileIsEquivalence(canonical, raw[j].path, raw[k].path, raw[i].path);
    }
  }

  lemma {:induction false} DeduplicatedKeeps(canonical: Canonical, raw: seq<SearchRoot>, i: nat)
    requires i < |raw| && Earliest(canonical, raw, i)
    ensures raw[i] in Deduplicated(canonical, raw)
  {
    var n := |raw| - 1;
    if i < n {
      assert Earliest(canonical, raw[..n], i);
      DeduplicatedKeeps(canonical, raw[..n], i);
    }
  }

  /** Two kept roots are never the same directory, and every kept root is one of the given ones. */
  lemma {:induction false} DeduplicatedDistinct(canonical: Canonical, raw: seq<SearchRoot>)
    ensures var out := Deduplicated(canonical, raw);
      && (forall r :: r in out ==> r in raw)
      && forall i, j :: 0 <= i < j < |out| ==> !SameFile(canonical, out[i].path, out[j].path)
  {
    if raw != [] {
      var n := |raw| - 1;
      DeduplicatedDistinct(canonical, raw[..n]);
      var before := Deduplicated(canonical, raw[..n]);
      forall i | 0 <= i < |before| && Earliest(canonical, raw, n)
        ensures !SameFile(canonical, before[i].path, raw[n].path)
      {
        assert before[i] in raw[..n];
      }
    }
  }

  lemma {:induction false} DeduplicatedSnoc(canonical: Canonical, raw: seq<SearchRoot>, i: nat)
    requires i < |raw|
    ensures Deduplicated(canonical, raw[..i + 1])
         == Deduplicated(canonical, raw[..i]) + if Earliest(canonical, raw, i) then [raw[i]] else []
  {
    assert raw[..i + 1][..i] == raw[..i];
    assert Earliest(canonical, raw[..i + 1], i) == Earliest(canonical, raw, i);
  }

  /** `build_roots`: the loop that drops a root already present. */
  method BuildRoots(canonical: Canonical, explicit: seq<Path>, env: Option<(string, seq<Path>)>,
                    path: Option<seq<Path>>)
    returns (out: seq<SearchRoot>)
    ensures out == Deduplicated(canonical, RawRoots(explicit, env, path))
    ensures SearchesAll(canonical, explicit, env, path, out)
  {
    out := Deduplicate(canonical, RawRoots(explicit, env, path));
    RootsSearchAll(canonical, explicit, env, path);
  }

  method Deduplicate(canonical: Canonical, raw: seq<SearchRoot>) returns (out: seq<SearchRoot>)
    ensures out == Deduplicated(canonical, raw)
  {
    out := [];
    for i := 0 to |raw|
      invariant out == Deduplicated(canonical, raw[..i])
    {
      var present := exists k :: 0 <= k < |out| && SameFile(canonical, out[k].path, raw[i].path);
      PresentIffNotEarliest(canonical, raw, i);
      DeduplicatedSnoc(canonical, raw, i);
      if !present {
        out := out + [raw[i]];
      }
    }
    assert raw[..|raw|] == raw;
  }

  /** Looking only at the kept roots is looking at all the earlier ones. */
  lemma {:induction false} PresentIffNotEarliest(canonical: Canonical, raw: seq<SearchRoot>, i: nat)
    requires i < |raw|
    ensures var out := Deduplicated(canonical, raw[..i]);
      (exists k :: 0 <= k < |out| && SameFile(canonical, out[k].path, raw[i].path)) <==> !Earliest(canonical, raw, i)
  {
    var out := Deduplicated(canonical, raw[..i]);
    DeduplicatedDistinct(canonical, raw[..i]);
    if k :| 0 <= k < |out| && SameFile(canonical, out[k].path, raw[i].path) {
      assert out[k] in raw[..i];
    }
    if !Earliest(canonical, raw, i) {
      var j :| 0 <= j < i && SameFile(canonical, raw[j].path, raw[i].path);
      var m := Representative(canonical, raw[..i], j);
      var k :| 0 <= k < |out| && out[k] == raw[..i][m];
      SameFileIsEquivalence(canonical, out[k].path, raw[j].path, raw[i].path);
    }
  }

  // ---------- What is searched, from the three lists ----------

  /** The directories a tier is given: explicit ones, those of the environment variable, those of PATH. */
  function Given(explicit: seq<Path>, env: Option<(string, seq<Path>)>, path: Option<seq<Path>>, tier: nat): seq<Path> {
    match tier
    case 1 => explicit
    case 2 => if env.Some? then env.value.1 else []
    case 3 => if path.Some? then path.value else []
    case _ => []
  }

  /** Where the directories of a tier start among all of them. */
  function Start(explicit: seq<Path>, env: Option<(string, seq<Path>)>, path: Option<seq<Path>>, tier: nat): nat {
    match tier
    case 2 => |explicit|
    case 3 => |explicit| + |Given(explicit, env, path, 2)|
    case _ => 0
  }

  /** A root is the a-th directory of a tier, with that tier's source. */
  predicate IsRoot(explicit: seq<Path>, env: Option<(string, seq<Path>)>, path: Option<seq<Path>>,
                   tier: nat, a: nat, r: SearchRoot) {
    && a < |Given(explicit, env, path, tier)| && r.path == Given(explicit, env, path, tier)[a]
    && match r.source
       case ExplicitPath => tier == 1
       case Environment(variable) => tier == 2 && env.Some? && env.value.0 == variable
       case PathVariable => tier == 3
       case Override => false
  }

  lemma {:induction false} RawRootIs(explicit: seq<Path>, env: Option<(string, seq<Path>)>, path: Option<seq<Path>>,
                                     tier: nat, a: nat)
    requires a < |Given(explicit, env, path, tier)|
    ensures var raw, i := RawRoots(explicit, env, path), Start(explicit, env, path, tier) + a;
      i < |raw| && IsRoot(explicit, env, path, tier, a, raw[i]) && Tier(raw[i].source) == tier
  {
  }

  lemma {:induction false} RawRootOf(explicit: seq<Path>, env: Option<(string, seq<Path>)>, path: Option<seq<Path>>,
                                     i: nat)
    returns (tier: nat, a: nat)
    requires i < |RawRoots(explicit, env, path)|
    ensures IsRoot(explicit, env, path, tier, a, RawRoots(explicit, env, path)[i])
    ensures i == Start(explicit, env, path, tier) + a
  {
    tier := if i < |explicit| then 1 else if i < Start(explicit, env, path, 3) then 2 else 3;
    a := i - Start(explicit, env, path, tier);
    RawRootIs(explicit, env, path, tier, a);
  }

  /** Every directory of each list is searched, under a source no worse than that list's, and nothing else is. */
  ghost predicate SearchesAll(canonical: Canonical, explicit: seq<Path>, env: Option<(string, seq<Path>)>,
                              path: Option<seq<Path>>, out: seq<SearchRoot>) {
    && (forall p :: p in explicit ==> Searched(canonical, out, p, 1))
    && (env.Some? ==> forall p :: p in env.value.1 ==> Searched(canonical, out, p, 2))
    && (path.Some? ==> forall p :: p in path.value ==> Searched(canonical, out, p, 3))
    && forall r :: r in out ==>
         || (r.source == ExplicitPath && r.path in explicit)
         || (env.Some? && r.source == Environment(env.value.0) && r.path in env.value.1)
         || (path.Some? && r.source == PathVariable && r.path in path.value)
  }

  ghost predicate Searched(canonical: Canonical, out: seq<SearchRoot>, p: Path, tier: nat) {
    exists r :: r in out && SameFile(canonical, r.path, p) && Tier(r.source) <= tier
  }

  lemma {:induction false} GivenIsSearched(canonical: Canonical, explicit: seq<Path>, env: Option<(string, seq<Path>)>,
                                           path: Option<seq<Path>>, tier: nat, a: nat)
    requires a < |Given(explicit, env, path, tier)|
    ensures Searched(canonical, Deduplicated(canonical, RawRoots(explicit, env, path)),
                     Given(explicit, env, path, tier)[a], tier)
  {
    var raw := RawRoots(explicit, env, path);
    RawRootIs(explicit, env, path, tier, a);
    RawTiersRise(explicit, env, path);
    var i := Start(explicit, env, path, tier) + a;
    var j := Representative(canonical, raw, i);
    assert Tier(raw[j].source) <= Tier(raw[i].source);
  }

  lemma {:induction false} TierIsSearched(canonical: Canonical, explicit: seq<Path>, env: Option<(string, seq<Path>)>,
                                          path: Option<seq<Path>>, tier: nat, p: Path)
    requires p in Given(explicit, env, path, tier)
    ensures Searched(canonical, Deduplicated(canonical, RawRoots(explicit, env, path)), p, tier)
  {
    var given := Given(explicit, env, path, tier);
    var a :| 0 <= a < |given| && given[a] == p;
    GivenIsSearched(canonical, explicit, env, path, tier, a);
  }

  lemma {:induction false} SearchedIsGiven(canonical: Canonical, explicit: seq<Path>, env: Option<(string, seq<Path>)>,
                                           path: Option<seq<Path>>, r: SearchRoot)
    returns (tier: nat, a: nat)
    requires r in Deduplicated(canonical, RawRoots(explicit, env, path))
    ensures IsRoot(explicit, env, path, tier, a, r)
  {
    var raw := RawRoots(explicit, env, path);
    DeduplicatedDistinct(canonical, raw);
    var i :| 0 <= i < |raw| && raw[i] == r;
    tier, a := RawRootOf(explicit, env, path, i);
  }

  lemma {:induction false} RootsSearchAll(canonical: Canonical, explicit: seq<Path>, env: Option<(string, seq<Path>)>,
                                          path: Option<seq<Path>>)
    ensures SearchesAll(canonical, explicit, env, path, Deduplicated(canonical, RawRoots(explicit, env, path)))
  {
    var out := Deduplicated(canonical, RawRoots(explicit, env, path));
    forall p | p in explicit ensures Searched(canonical, out, p, 1) {
      TierIsSearched(canonical, explicit, env, path, 1, p);
    }
    forall p | env.Some? && p in env.value.1 ensures Searched(canonical, out, p, 2) {
      TierIsSearched(canonical, explicit, env, path, 2, p);
    }
    forall p | path.Some? && p in path.value ensures Searched(canonical, out, p, 3) {
      TierIsSearched(canonical, explicit, env, path, 3, p);
    }
    forall r | r in out
      ensures || (r.source == ExplicitPath && r.path in explicit)
              || (env.Some? && r.source == Environment(env.value.0) && r.path in env.value.1)
              || (path.Some? && r.source == PathVariable && r.path in path.value)
    {
      var tier, a := SearchedIsGiven(canonical, explicit, env, path, r);
    }
  }

  /** Whether one place in the lists comes before another. */
  predicate Precedes(tier: nat, a: nat, tier': nat, a': nat) {
    tier < tier' || (tier == tier' && a < a')
  }

  /** Roots are searched in the order of the lists and, within a list, in its order. */
  lemma {:induction false} RootsKeepOrder(canonical: Canonical, explicit: seq<Path>, env: Option<(string, seq<Path>)>,
                                          path: Option<seq<Path>>, i: nat, j: nat)
    returns (tier: nat, a: nat, tier': nat, a': nat)
    requires i < j < |Deduplicated(canonical, RawRoots(explicit, env, path))|
    ensures var out := Deduplicated(canonical, RawRoots(explicit, env, path));
      && IsRoot(explicit, env, path, tier, a, out[i]) && IsRoot(explicit, env, path, tier', a', out[j])
      && Precedes(tier, a, tier', a')
  {
    var raw := RawRoots(explicit, env, path);
    var m, n := DeduplicatedOrder(canonical, raw, i, j);
    tier, a := RawRootOf(explicit, env, path, m);
    tier', a' := RawRootOf(explicit, env, path, n);
  }

  lemma {:induction false} DeduplicatedPlace(canonical: Canonical, raw: seq<SearchRoot>, i: nat) returns (m: nat)
    requires i < |Deduplicated(canonical, raw)|
    ensures m < |raw| && raw[m] == Deduplicated(canonical, raw)[i] && Earliest(canonical, raw, m)
  {
    var n := |raw| - 1;
    if i < |Deduplicated(canonical, raw[..n])| {
      m := DeduplicatedPlace(canonical, raw[..n], i);
      assert raw[..n][m] == raw[m];
    } else {
      m := n;
    }
  }

  lemma {:induction false} DeduplicatedOrder(canonical: Canonical, raw: seq<SearchRoot>, i: nat, j: nat)
    returns (m: nat, n: nat)
    requires i < j < |Deduplicated(canonical, raw)|
    ensures m < n < |raw| && Earliest(canonical, raw, m) && Earliest(canonical, raw, n)
    ensures raw[m] == Deduplicated(canonical, raw)[i] && raw[n] == Deduplicated(canonical, raw)[j]
  {
    var z := |raw| - 1;
    if j < |Deduplicated(canonical, raw[..z])| {
      m, n := DeduplicatedOrder(canonical, raw[..z], i, j);
    } else {
      m := DeduplicatedPlace(canonical, raw[..z], i);
      n := z;
    }
  }

  // ---------- The scan ----------

  /** A directory entry; `utf8` says whether its name is valid UTF-8. */
  datatype Entry = Entry(name: string, utf8: bool, path: Path, executable: bool)

  datatype Directory = Listing(entries: seq<Entry>) | Unreadable | IoFailure

  /** `read_dir` and the checks on each entry. */
  type FileSystem = Path -> Directory

  /** A plugin executable in scan order, before precedences are given. */
  datatype Found = Found(id: PluginId, path: Path, source: Source)

  predicate NameLeq(a: string, b: string) {
    a == "" || (b != "" && (a[0] < b[0] || (a[0] == b[0] && NameLeq(a[1..], b[1..]))))
  }

  function ByName(): Sorting.Order<Entry> {
    (x: Entry, y: Entry) => NameLeq(x.name, y.name)
  }

  function PluginNameOf(prefix: string, e: Entry): Option<string> {
    if e.executable && e.utf8 && prefix <= e.name && ValidIdentifier(e.name[|prefix|..], false)
    then Some(e.name[|prefix|..]) else None
  }

  function Prefix(ns: string, kind: string): string {
    ns + "-" + kind + "-"
  }

  function InEntries(ns: string, kind: string, source: Source, es: seq<Entry>): seq<Found> {
    if es == [] then []
    else
      var e := es[|es| - 1];
      var name := PluginNameOf(Prefix(ns, kind), e);
      InEntries(ns, kind, source, es[..|es| - 1])
      + if name.Some? then [Found(PluginId(ns, kind, name.value), e.path, source)] else []
  }

  function InRoot(fs: FileSystem, ns: string, kind: string, root: SearchRoot): seq<Found> {
    match fs(root.path)
    case Listing(es) => InEntries(ns, kind, root.source, Sorting.Sort(ByName(), es))
    case _ => []
  }

  function InRoots(fs: FileSystem, ns: string, kind: string, roots: seq<SearchRoot>): seq<Found> {
    if roots == [] then []
    else InRoots(fs, ns, kind, roots[..|roots| - 1]) + InRoot(fs, ns, kind, roots[|roots| - 1])
  }

  function InOverrides(ns: string, kind: string, overrides: seq<(string, Path)>): seq<Found> {
    seq(|overrides|, i requires 0 <= i < |overrides| =>
      Found(PluginId(ns, kind, overrides[i].0), overrides[i].1, Override))
  }

  /** Everything found, in scan order: overrides, then roots in order, then file names in order. */
  function Scanned(fs: FileSystem, ns: string, kind: string, roots: seq<SearchRoot>, overrides: seq<(string,
                   Path)>): seq<Found> {
    InOverrides(ns, kind, overrides) + InRoots(fs, ns, kind, roots)
  }

  /** The precedence of a candidate is its place in the scan. */
  function Candidates(found: seq<Found>): seq<Candidate> {
    seq(|found|, i requires 0 <= i < |found| => Candidate(found[i].id, found[i].path, found[i].source, i))
  }

  // ---------- Which candidates win ----------

  predicate First(cs: seq<Candidate>, i: nat)
    requires i < |cs|
  {
    forall j :: 0 <= j < i ==> cs[j].id != cs[i].id
  }

  /** The first candidate of each identity, in order. */
  function FirstWins(cs: seq<Candidate>): seq<Candidate> {
    if cs == [] then []
    else
      var n := |cs| - 1;
      FirstWins(cs[..n]) + if First(cs, n) then [cs[n]] else []
  }

  /** The `insert` loop's two maps, and the next precedence. */
  class Discoverer {
    const canonical: Canonical
    var selected: map<PluginId, Candidate>
    var shadowed: map<PluginId, seq<Candidate>>
    ghost var seen: seq<Candidate>

    constructor (canonical: Canonical)
      ensures Valid() && seen == [] && this.canonical == canonical
    {
      this.canonical := canonical;
      selected, shadowed, seen := map[], map[], [];
    }

    ghost predicate Valid()
      reads this
    {
      && SelectsFirst(seen, selected)
      && Shadows(canonical, seen, shadowed)
    }

    method Insert(candidate: Candidate)
      requires Valid()
      modifies this
      ensures Valid() && seen == old(seen) + [candidate]
    {
      if candidate.id in selected {
        var existing := selected[candidate.id];
        if !SameFile(canonical, existing.path, candidate.path) {
          var list := if candidate.id in shadowed then shadowed[candidate.id] else [];
          shadowed := shadowed[candidate.id := list + [candidate]];
        }
      } else {
        selected := selected[candidate.id := candidate];
      }
      InsertKeeps(canonical, seen, candidate, old(selected), selected, old(shadowed), shadowed);
      seen := seen + [candidate];
    }
  }

  /** The first candidate of an identity among those seen. */
  ghost predicate IsFirstOf(cs: seq<Candidate>, id: PluginId, c: Candidate) {
    exists i :: 0 <= i < |cs| && cs[i] == c && c.id == id && First(cs, i)
  }

  ghost predicate SelectsFirst(cs: seq<Candidate>, selected: map<PluginId, Candidate>) {
    && (forall i :: 0 <= i < |cs| ==> cs[i].id in selected)
    && (forall id :: id in selected ==> IsFirstOf(cs, id, selected[id]))
  }

  /** The first candidate's path, for an identity that was seen. */
  function FirstPath(cs: seq<Candidate>, id: PluginId): Option<Path> {
    if cs == [] then None else if cs[0].id == id then Some(cs[0].path) else FirstPath(cs[1..], id)
  }

  /** The later candidates of an identity that are not the selected file, in order. */
  function ShadowList(canonical: Canonical, cs: seq<Candidate>, id: PluginId): seq<Candidate> {
    if cs == [] then []
    else
      var n := |cs| - 1;
      var first := FirstPath(cs[..n], id);
      ShadowList(canonical, cs[..n], id)
      + if cs[n].id == id && first.Some? && !SameFile(canonical, first.value, cs[n].path) then [cs[n]] else []
  }

  ghost predicate Shadows(canonical: Canonical, cs: seq<Candidate>, shadowed: map<PluginId, seq<Candidate>>) {
    forall id :: ShadowList(canonical, cs, id) == if id in shadowed then shadowed[id] else []
  }

  lemma {:induction false} FirstPathOf(cs: seq<Candidate>, id: PluginId)
    ensures FirstPath(cs, id).None? <==> forall i :: 0 <= i < |cs| ==> cs[i].id != id
    ensures forall i :: 0 <= i < |cs| && cs[i].id == id && First(cs, i) ==> FirstPath(cs, id) == Some(cs[i].path)
  {
    if cs != [] {
      FirstPathOf(cs[1..], id);
      forall i | 0 <= i < |cs| && cs[i].id == id && First(cs, i) ensures FirstPath(cs, id) == Some(cs[i].path) {
        if i > 0 {
          assert cs[0].id != cs[i].id;
          assert First(cs[1..], i - 1) by {
            forall j | 0 <= j < i - 1 ensures cs[1..][j].id != cs[1..][i - 1].id {
              assert cs[j + 1].id != cs[i].id;
            }
          }
          assert cs[1..][i - 1] == cs[i];
        }
      }
      assert FirstPath(cs, id).None? ==> forall i :: 1 <= i < |cs| ==> cs[i] == cs[1..][i - 1];
    }
  }

  lemma {:induction false} FirstSnoc(cs: seq<Candidate>, c: Candidate)
    ensures forall i :: 0 <= i < |cs| ==> (First(cs + [c], i) <==> First(cs, i))
    ensures First(cs + [c], |cs|) <==> forall i :: 0 <= i < |cs| ==> cs[i].id != c.id
  {
    var ds := cs + [c];
    assert forall i :: 0 <= i < |cs| ==> ds[i] == cs[i];
    if First(ds, |cs|) {
      forall i | 0 <= i < |cs| ensures cs[i].id != c.id {
        assert ds[i].id != ds[|cs|].id;
      }
    }
    forall i | 0 <= i < |cs| ensures First(ds, i) <==> First(cs, i) {
      if First(ds, i) {
        forall j | 0 <= j < i ensures cs[j].id != cs[i].id {
          assert ds[j].id != ds[i].id;
        }
      }
    }
  }

  lemma {:induction false} SelectKeeps(cs: seq<Candidate>, c: Candidate, selected: map<PluginId, Candidate>)
    requires SelectsFirst(cs, selected)
    ensures SelectsFirst(cs + [c], if c.id in selected then selected else selected[c.id := c])
  {
    var ds := cs + [c];
    var selected' := if c.id in selected then selected else selected[c.id := c];
    FirstSnoc(cs, c);
    forall id | id in selected' ensures IsFirstOf(ds, id, selected'[id]) {
      if id in selected {
        var i :| 0 <= i < |cs| && cs[i] == selected[id] && cs[i].id == id && First(cs, i);
        assert ds[i] == cs[i];
      } else {
        assert ds[|cs|] == c;
      }
    }
  }

  lemma {:induction false} SelectedIsFirstPath(cs: seq<Candidate>, selected: map<PluginId, Candidate>, id: PluginId)
    requires SelectsFirst(cs, selected)
    ensures FirstPath(cs, id) == if id in selected then Some(selected[id].path) else None
  {
    FirstPathOf(cs, id);
    if id in selected {
      assert IsFirstOf(cs, id, selected[id]);
    }
  }

  lemma {:induction false} ShadowKeeps(canonical: Canonical, cs: seq<Candidate>, c: Candidate,
                                       shadowed: map<PluginId, seq<Candidate>>)
    requires Shadows(canonical, cs, shadowed)
    ensures var first := FirstPath(cs, c.id);
      Shadows(canonical, cs + [c],
        if first.Some? && !SameFile(canonical, first.value, c.path)
        then shadowed[c.id := (if c.id in shadowed then shadowed[c.id] else []) + [c]] else shadowed)
  {
    assert (cs + [c])[..|cs|] == cs;
  }

  lemma {:induction false} InsertKeeps(canonical: Canonical, cs: seq<Candidate>, c: Candidate,
                    selected: map<PluginId, Candidate>, selected': map<PluginId, Candidate>,
                    shadowed: map<PluginId, seq<Candidate>>, shadowed': map<PluginId, seq<Candidate>>)
    requires SelectsFirst(cs, selected) && Shadows(canonical, cs, shadowed)
    requires selected' == if c.id in selected then selected else selected[c.id := c]
    requires shadowed' ==
      if c.id in selected && !SameFile(canonical, selected[c.id].path, c.path)
      then shadowed[c.id := (if c.id in shadowed then shadowed[c.id] else []) + [c]] else shadowed
    ensures SelectsFirst(cs + [c], selected') && Shadows(canonical, cs + [c], shadowed')
  {
    SelectKeeps(cs, c, selected);
    SelectedIsFirstPath(cs, selected, c.id);
    ShadowKeeps(canonical, cs, c, shadowed);
  }

  // ---------- The whole discovery ----------

  datatype DiscoverySet = DiscoverySet(
    selected: seq<Candidate>, shadowed: map<PluginId, seq<Candidate>>, roots: seq<SearchRoot>)

  function ByPrecedence(): Sorting.Order<Candidate> {
    (x: Candidate, y: Candidate) => x.precedence <= y.precedence
  }

  ghost predicate Rising(cs: seq<Candidate>) {
    forall i, j :: 0 <= i < j < |cs| ==> cs[i].precedence < cs[j].precedence
  }

  /** Precedence is position. */
  ghost predicate Numbered(cs: seq<Candidate>) {
    forall i :: 0 <= i < |cs| ==> cs[i].precedence == i
  }

  lemma {:induction false} FirstWinsIsExact(cs: seq<Candidate>)
    requires Numbered(cs)
    ensures Rising(FirstWins(cs))
    ensures forall c :: c in FirstWins(cs) <==> exists i :: 0 <= i < |cs| && cs[i] == c && First(cs, i)
  {
    if cs != [] {
      var n := |cs| - 1;
      var before := cs[..n];
      assert cs == before + [cs[n]];
      FirstWinsIsExact(before);
      FirstSnoc(before, cs[n]);
      forall c | c in FirstWins(cs) ensures exists i :: 0 <= i < |cs| && cs[i] == c && First(cs, i) {
        if c in FirstWins(before) {
          var i :| 0 <= i < n && before[i] == c && First(before, i);
          assert cs[i] == c && First(cs, i);
        }
      }
      forall i | 0 <= i < |cs| && First(cs, i) ensures cs[i] in FirstWins(cs) {
        if i < n {
          assert before[i] == cs[i] && First(before, i);
        }
      }
      forall c | c in FirstWins(before) ensures c.precedence < n {
        var i :| 0 <= i < n && before[i] == c && First(before, i);
      }
    }
  }

  lemma {:induction false} RisingIsUnique(xs: seq<Candidate>, ys: seq<Candidate>)
    requires Rising(xs) && Rising(ys) && forall c :: c in xs <==> c in ys
    ensures xs == ys
  {
    assert ys == [] || ys[0] in ys;
    if xs != [] {
      var n := |xs| - 1;
      assert xs[n] in ys;
      var m := |ys| - 1;
      assert ys[m] in xs;
      var i :| 0 <= i < |xs| && xs[i] == ys[m];
      var j :| 0 <= j < |ys| && ys[j] == xs[n];
      assert xs[n] == ys[m];
      forall c ensures c in xs[..n] <==> c in ys[..m] {
        assert c in xs[..n] ==> c in xs && c.precedence < xs[n].precedence;
        assert c in ys[..m] ==> c in ys && c.precedence < ys[m].precedence;
      }
      RisingIsUnique(xs[..n], ys[..m]);
    }
  }

  /** `selected.into_values().collect()`, in whatever order. */
  method ValuesOf(m: map<PluginId, Candidate>) returns (vs: seq<Candidate>)
    requires forall id :: id in m ==> m[id].id == id
    ensures forall c :: c in vs <==> c.id in m && m[c.id] == c
    ensures forall i, j :: 0 <= i < j < |vs| ==> vs[i].id != vs[j].id
  {
    vs := [];
    var left := m.Keys;
    while left != {}
      invariant left <= m.Keys
      invariant forall c :: c in vs <==> c.id in m && c.id !in left && m[c.id] == c
      invariant forall i, j :: 0 <= i < j < |vs| ==> vs[i].id != vs[j].id
      decreases |left|
    {
      var id :| id in left;
      assert forall i :: 0 <= i < |vs| ==> vs[i] in vs;
      vs := vs + [m[id]];
      left := left - {id};
    }
  }

  lemma {:induction false} SelectedAreFirstWins(cs: seq<Candidate>, selected: map<PluginId, Candidate>, c: Candidate)
    requires Numbered(cs) && SelectsFirst(cs, selected)
    ensures c in FirstWins(cs) <==> c.id in selected && selected[c.id] == c
  {
    FirstWinsIsExact(cs);
    if c in FirstWins(cs) {
      var i :| 0 <= i < |cs| && cs[i] == c && First(cs, i);
      assert IsFirstOf(cs, c.id, selected[c.id]);
      var j :| 0 <= j < |cs| && cs[j] == selected[c.id] && First(cs, j) && cs[j].id == c.id;
      assert i == j;
    }
    if c.id in selected && selected[c.id] == c {
      assert IsFirstOf(cs, c.id, c);
    }
  }

  lemma {:induction false} SortedValues(cs: seq<Candidate>, selected: map<PluginId, Candidate>, vs: seq<Candidate>)
    requires Numbered(cs) && SelectsFirst(cs, selected)
    requires forall c :: c in vs <==> c.id in selected && selected[c.id] == c
    requires forall i, j :: 0 <= i < j < |vs| ==> vs[i].id != vs[j].id
    ensures Sorting.Sort(ByPrecedence(), vs) == FirstWins(cs)
  {
    var xs := Sorting.Sort(ByPrecedence(), vs);
    Sorting.SortIsSorted(ByPrecedence(), vs);
    FirstWinsIsExact(cs);
    forall c ensures c in xs <==> c in FirstWins(cs) {
      assert c in xs <==> c in multiset(xs);
      SelectedAreFirstWins(cs, selected, c);
    }
    SortedIsRising(cs, vs, xs);
    RisingIsUnique(xs, FirstWins(cs));
  }

  lemma {:induction false} SortedIsRising(cs: seq<Candidate>, vs: seq<Candidate>, xs: seq<Candidate>)
    requires Numbered(cs) && multiset(xs) == multiset(vs) && Sorting.Ordered(ByPrecedence(), xs)
    requires forall i, j :: 0 <= i < j < |vs| ==> vs[i].id != vs[j].id
    requires forall c :: c in xs ==> c in cs
    ensures Rising(xs)
  {
    forall i, j | 0 <= i < j < |xs| ensures xs[i].precedence < xs[j].precedence {
      assert ByPrecedence()(xs[i], xs[j]);
      assert xs[i] in cs && xs[j] in cs;
      if xs[i] == xs[j] {
        Once(vs, xs[i]);
        Twice(xs, i, j);
      }
    }
  }

  lemma {:induction false} Once(vs: seq<Candidate>, c: Candidate)
    requires forall i, j :: 0 <= i < j < |vs| ==> vs[i].id != vs[j].id
    ensures multiset(vs)[c] <= 1
  {
    if vs != [] {
      var n := |vs| - 1;
      Once(vs[..n], c);
      assert vs == vs[..n] + [vs[n]];
      if c == vs[n] {
        assert forall i :: 0 <= i < n ==> vs[i] != c;
        assert c !in vs[..n];
      }
    }
  }

  lemma {:induction false} Twice(xs: seq<Candidate>, i: nat, j: nat)
    requires i < j < |xs| && xs[i] == xs[j]
    ensures multiset(xs)[xs[i]] >= 2
  {
    assert xs == xs[..j] + xs[j..];
    assert xs[i] in xs[..j] && xs[i] == xs[j..][0];
    assert xs[..j][i] == xs[i];
  }

  lemma {:induction false} CandidatesSnoc(found: seq<Found>, f: Found)
    ensures Candidates(found + [f]) == Candidates(found) + [Candidate(f.id, f.path, f.source, |found|)]
  {
  }

  /** The loop over the sorted entries of one directory. */
  method ScanEntries(d: Discoverer, precedence: nat, ns: string, kind: string, source: Source, es: seq<Entry>,
                     ghost before: seq<Found>)
    returns (next: nat)
    requires d.Valid() && d.seen == Candidates(before) && precedence == |before|
    modifies d
    ensures d.Valid() && d.seen == Candidates(before + InEntries(ns, kind, source, es))
    ensures next == |before + InEntries(ns, kind, source, es)|
  {
    next := precedence;
    assert before + InEntries(ns, kind, source, []) == before;
    for i := 0 to |es|
      invariant d.Valid() && d.seen == Candidates(before + InEntries(ns, kind, source, es[..i]))
      invariant next == |before + InEntries(ns, kind, source, es[..i])|
    {
      assert es[..i + 1][..i] == es[..i];
      ghost var sofar := before + InEntries(ns, kind, source, es[..i]);
      var name := PluginNameOf(Prefix(ns, kind), es[i]);
      if name.Some? {
        var id := PluginId(ns, kind, name.value);
        CandidatesSnoc(sofar, Found(id, es[i].path, source));
        assert before + InEntries(ns, kind, source, es[..i + 1]) == sofar + [Found(id, es[i].path, source)];
        d.Insert(Candidate(id, es[i].path, source, next));
        next := next + 1;
      }
    }
    assert es[..|es|] == es;
  }

  method ScanOverrides(d: Discoverer, ns: string, kind: string, overrides: seq<(string, Path)>) returns (next: nat)
    requires d.Valid() && d.seen == []
    modifies d
    ensures d.Valid() && d.seen == Candidates(InOverrides(ns, kind, overrides)) && next == |overrides|
  {
    next := 0;
    for i := 0 to |overrides|
      invariant d.Valid() && d.seen == Candidates(InOverrides(ns, kind, overrides[..i])) && next == i
    {
      var (name, path) := overrides[i];
      var id := PluginId(ns, kind, name);
      CandidatesSnoc(InOverrides(ns, kind, overrides[..i]), Found(id, path, Override));
      assert InOverrides(ns, kind, overrides[..i + 1])
        == InOverrides(ns, kind, overrides[..i]) + [Found(id, path, Override)];
      d.Insert(Candidate(id, path, Override, next));
      next := next + 1;
    }
    assert overrides[..|overrides|] == overrides;
  }

  predicate AnyFailure(fs: FileSystem, roots: seq<SearchRoot>) {
    exists i :: 0 <= i < |roots| && fs(roots[i].path).IoFailure?
  }

  /** One search root: absent and forbidden ones are skipped, any other failure ends the scan. */
  method ScanRoot(d: Discoverer, precedence: nat, fs: FileSystem, ns: string, kind: string, root: SearchRoot,
                  ghost before: seq<Found>)
    returns (ok: bool, next: nat)
    requires d.Valid() && d.seen == Candidates(before) && precedence == |before|
    modifies d
    ensures d.Valid() && (ok <==> !fs(root.path).IoFailure?)
    ensures d.seen == Candidates(before + InRoot(fs, ns, kind, root)) && next == |before + InRoot(fs, ns, kind, root)|
  {
    ok, next := true, precedence;
    match fs(root.path) {
      case IoFailure =>
        ok := false;
        assert before + [] == before;
      case Unreadable => assert before + [] == before;
      case Listing(es) =>
        next := ScanEntries(d, next, ns, kind, root.source, Sorting.Sort(ByName(), es), before);
    }
  }

  lemma {:induction false} InRootsSnoc(fs: FileSystem, ns: string, kind: string, roots: seq<SearchRoot>, i: nat,
                                       before: seq<Found>)
    requires i < |roots|
    ensures before + InRoots(fs, ns, kind, roots[..i + 1])
         == before + InRoots(fs, ns, kind, roots[..i]) + InRoot(fs, ns, kind, roots[i])
  {
    assert roots[..i + 1][..i] == roots[..i];
  }

  /** The loop over the search roots; `ok` is false when one of them fails to be read. */
  method ScanRoots(d: Discoverer, precedence: nat, fs: FileSystem, ns: string, kind: string, roots: seq<SearchRoot>,
                   ghost before: seq<Found>)
    returns (ok: bool)
    requires d.Valid() && d.seen == Candidates(before) && precedence == |before|
    modifies d
    ensures d.Valid() && (ok <==> !AnyFailure(fs, roots))
    ensures ok ==> d.seen == Candidates(before + InRoots(fs, ns, kind, roots))
  {
    var next := precedence;
    ghost var sofar := before;
    assert before + [] == before;
    for i := 0 to |roots|
      invariant sofar == before + InRoots(fs, ns, kind, roots[..i])
      invariant d.Valid() && d.seen == Candidates(sofar) && next == |sofar|
      invariant forall j :: 0 <= j < i ==> !fs(roots[j].path).IoFailure?
    {
      ok, next := ScanRoot(d, next, fs, ns, kind, roots[i], sofar);
      if !ok {
        return;
      }
      InRootsSnoc(fs, ns, kind, roots, i, before);
      sofar := sofar + InRoot(fs, ns, kind, roots[i]);
    }
    assert roots[..|roots|] == roots;
    ok := true;
  }

  /** `discover_in_roots`. */
  method Discover(canonical: Canonical, fs: FileSystem, ns: string, kind: string, roots: seq<SearchRoot>,
                  overrides: seq<(string, Path)>)
    returns (r: Option<DiscoverySet>)
    ensures r.None? <==> AnyFailure(fs, roots)
    ensures r.Some? ==>
      var cs := Candidates(Scanned(fs, ns, kind, roots, overrides));
      && r.value.selected == FirstWins(cs)
      && Shadows(canonical, cs, r.value.shadowed)
      && r.value.roots == roots
  {
    var d := new Discoverer(canonical);
    var next := ScanOverrides(d, ns, kind, overrides);
    var ok := ScanRoots(d, next, fs, ns, kind, roots, InOverrides(ns, kind, overrides));
    if !ok {
      return None;
    }
    var values := ValuesOf(d.selected);
    SortedValues(d.seen, d.selected, values);
    r := Some(DiscoverySet(Sorting.Sort(ByPrecedence(), values), d.shadowed, roots));
  }

  // ---------- Every candidate is accounted for ----------

  lemma {:induction false} FirstPathStable(cs: seq<Candidate>, n: nat, id: PluginId)
    requires n <= |cs| && FirstPath(cs[..n], id).Some?
    ensures FirstPath(cs, id) == FirstPath(cs[..n], id)
  {
    if cs[0].id != id {
      assert cs[..n][1..] == cs[1..][..n - 1];
      FirstPathStable(cs[1..], n - 1, id);
    }
  }

  lemma {:induction false} InShadowList(canonical: Canonical, cs: seq<Candidate>, id: PluginId, i: nat)
    requires Numbered(cs) && i < |cs| && cs[i].id == id
    ensures FirstPath(cs, id).Some?
    ensures cs[i] in ShadowList(canonical, cs, id) <==>
      !First(cs, i) && !SameFile(canonical, FirstPath(cs, id).value, cs[i].path)
  {
    var n := |cs| - 1;
    FirstPathOf(cs, id);
    FirstPathOf(cs[..n], id);
    assert cs == cs[..n] + [cs[n]];
    FirstSnoc(cs[..n], cs[n]);
    ShadowMembers(canonical, cs[..n], id);
    if i < n {
      InShadowList(canonical, cs[..n], id, i);
      FirstPathStable(cs, n, id);
    } else if FirstPath(cs[..n], id).Some? {
      FirstPathStable(cs, n, id);
      assert !First(cs, n);
    }
  }

  /** Shadowed candidates come after the selected one, in scan order. */
  lemma {:induction false} ShadowMembers(canonical: Canonical, cs: seq<Candidate>, id: PluginId)
    requires Numbered(cs)
    ensures Rising(ShadowList(canonical, cs, id))
    ensures forall c :: c in ShadowList(canonical, cs, id) ==>
      c.precedence < |cs| && cs[c.precedence] == c && c.id == id
  {
    if cs != [] {
      ShadowMembers(canonical, cs[..|cs| - 1], id);
    }
  }

  lemma {:induction false} ShadowIsLater(canonical: Canonical, cs: seq<Candidate>, i: nat, d: Candidate)
    requires Numbered(cs) && i < |cs| && First(cs, i) && d in ShadowList(canonical, cs, cs[i].id)
    ensures i < d.precedence
  {
    ShadowMembers(canonical, cs, cs[i].id);
    InShadowList(canonical, cs, cs[i].id, d.precedence);
    var m :| 0 <= m < d.precedence && cs[m].id == cs[d.precedence].id;
    assert m >= i;
  }

  /**
   Each scanned candidate is exactly one of: selected, being the first of its identity; shadowed
   under its identity; or dropped as the same file as the selected one. Shadow lists rise in
   precedence, and every entry is above its selected candidate.
  */
  lemma {:induction false} EveryCandidateAccountedFor(canonical: Canonical, found: seq<Found>, i: nat)
    requires i < |found|
    ensures var cs := Candidates(found); var c := cs[i]; var shadows := ShadowList(canonical, cs, c.id);
      && FirstPath(cs, c.id).Some?
      && (c in FirstWins(cs) <==> First(cs, i))
      && (c in shadows <==> c !in FirstWins(cs) && !SameFile(canonical, FirstPath(cs, c.id).value, c.path))
      && Rising(shadows)
      && (c in FirstWins(cs) ==> forall d :: d in shadows ==> c.precedence < d.precedence)
  {
    var cs := Candidates(found);
    var c := cs[i];
    FirstWinsIsExact(cs);
    InShadowList(canonical, cs, c.id, i);
    ShadowMembers(canonical, cs, c.id);
    if c in FirstWins(cs) {
      forall d | d in ShadowList(canonical, cs, c.id) ensures c.precedence < d.precedence {
        ShadowIsLater(canonical, cs, i, d);
      }
    }
  }

  // ---------- The best tier wins ----------

  ghost predicate TiersRise(roots: seq<SearchRoot>) {
    forall i, j :: 0 <= i < j < |roots| ==> Tier(roots[i].source) <= Tier(roots[j].source)
  }

  lemma {:induction false} RawTiersRise(explicit: seq<Path>, env: Option<(string, seq<Path>)>, path: Option<seq<Path>>)
    ensures TiersRise(RawRoots(explicit, env, path))
  {
  }

  lemma {:induction false} DeduplicatedTiersRise(canonical: Canonical, raw: seq<SearchRoot>)
    requires TiersRise(raw)
    ensures TiersRise(Deduplicated(canonical, raw))
  {
    if raw != [] {
      var n := |raw| - 1;
      DeduplicatedTiersRise(canonical, raw[..n]);
      DeduplicatedDistinct(canonical, raw[..n]);
      var before := Deduplicated(canonical, raw[..n]);
      forall i | 0 <= i < |before| ensures Tier(before[i].source) <= Tier(raw[n].source) {
        assert before[i] in raw[..n];
      }
    }
  }

  lemma {:induction false} InEntriesSource(ns: string, kind: string, source: Source, es: seq<Entry>)
    ensures forall f :: f in InEntries(ns, kind, source, es) ==> f.source == source
  {
    if es != [] {
      InEntriesSource(ns, kind, source, es[..|es| - 1]);
    }
  }

  ghost predicate FoundTiersRise(fs: seq<Found>) {
    forall i, j :: 0 <= i < j < |fs| ==> Tier(fs[i].source) <= Tier(fs[j].source)
  }

  lemma {:induction false} InRootsTiersRise(fs: FileSystem, ns: string, kind: string, roots: seq<SearchRoot>)
    requires TiersRise(roots)
    ensures FoundTiersRise(InRoots(fs, ns, kind, roots))
    ensures forall f :: f in InRoots(fs, ns, kind, roots) ==>
      roots != [] && Tier(f.source) <= Tier(roots[|roots| - 1].source)
  {
    if roots != [] {
      var n := |roots| - 1;
      InRootsTiersRise(fs, ns, kind, roots[..n]);
      var before, last := InRoots(fs, ns, kind, roots[..n]), InRoot(fs, ns, kind, roots[n]);
      if fs(roots[n].path).Listing? {
        InEntriesSource(ns, kind, roots[n].source, Sorting.Sort(ByName(), fs(roots[n].path).entries));
      }
      assert forall f :: f in last ==> f.source == roots[n].source;
      assert forall f :: f in before ==> Tier(f.source) <= Tier(roots[n].source);
      FoundTiersConcat(before, last);
    }
  }

  lemma {:induction false} FoundTiersConcat(a: seq<Found>, b: seq<Found>)
    requires FoundTiersRise(a) && FoundTiersRise(b)
    requires forall x, y :: x in a && y in b ==> Tier(x.source) <= Tier(y.source)
    ensures FoundTiersRise(a + b)
  {
    forall i, j | 0 <= i < j < |a + b| ensures Tier((a + b)[i].source) <= Tier((a + b)[j].source) {
      if i < |a| && |a| <= j {
        assert (a + b)[i] in a && (a + b)[j] in b;
      }
    }
  }

  /** Whatever else was found under an identity, the selected candidate is of no worse tier:
      override, then explicit root, then environment, then PATH. */
  lemma {:induction false} SelectedIsOfBestTier(canonical: Canonical, fs: FileSystem, ns: string, kind: string,
                             explicit: seq<Path>, env: Option<(string, seq<Path>)>, path: Option<seq<Path>>,
                             overrides: seq<(string, Path)>, i: nat)
    requires i < |Scanned(fs, ns, kind, Deduplicated(canonical, RawRoots(explicit, env, path)), overrides)|
    ensures var roots := Deduplicated(canonical, RawRoots(explicit, env, path));
      var cs := Candidates(Scanned(fs, ns, kind, roots, overrides));
      exists c :: c in FirstWins(cs) && c.id == cs[i].id && Tier(c.source) <= Tier(cs[i].source)
  {
    var roots := Deduplicated(canonical, RawRoots(explicit, env, path));
    var found := Scanned(fs, ns, kind, roots, overrides);
    var cs := Candidates(found);
    RawTiersRise(explicit, env, path);
    DeduplicatedTiersRise(canonical, RawRoots(explicit, env, path));
    InRootsTiersRise(fs, ns, kind, roots);
    FoundTiersConcat(InOverrides(ns, kind, overrides), InRoots(fs, ns, kind, roots));
    var k := FirstIndex(cs, i);
    FirstWinsIsExact(cs);
    assert cs[k] in FirstWins(cs) && Tier(found[k].source) <= Tier(found[i].source);
  }

  lemma {:induction false} FirstIndex(cs: seq<Candidate>, i: nat) returns (k: nat)
    requires i < |cs|
    ensures k <= i && cs[k].id == cs[i].id && First(cs, k)
    decreases i
  {
    k := i;
    if !First(cs, i) {
      var j :| 0 <= j < i && cs[j].id == cs[i].id;
      k := FirstIndex(cs, j);
    }
  }

  // ---------- A directory listed twice ----------

  /** The plugin `name` is in a listing. */
  ghost predicate Offers(d: Directory, prefix: string, name: string) {
    d.Listing? && exists e :: e in d.entries && PluginNameOf(prefix, e) == Some(name)
  }

  lemma {:induction false} InEntriesOffers(ns: string, kind: string, source: Source, es: seq<Entry>, name: string)
    requires exists e :: e in es && PluginNameOf(Prefix(ns, kind), e) == Some(name)
    ensures exists f :: f in InEntries(ns, kind, source, es) && f.id == PluginId(ns, kind, name)
  {
    var n := |es| - 1;
    var e :| e in es && PluginNameOf(Prefix(ns, kind), e) == Some(name);
    if e == es[n] {
      assert Found(PluginId(ns, kind, name), e.path, source) in InEntries(ns, kind, source, es);
    } else {
      assert e in es[..n];
      InEntriesOffers(ns, kind, source, es[..n], name);
      var f :| f in InEntries(ns, kind, source, es[..n]) && f.id == PluginId(ns, kind, name);
      assert f in InEntries(ns, kind, source, es);
    }
  }

  ghost predicate Finds(fs: seq<Found>, id: PluginId, source: Source) {
    exists f :: f in fs && f.id == id && f.source == source
  }

  lemma {:induction false} InRootOffers(fs: FileSystem, ns: string, kind: string, root: SearchRoot, name: string)
    requires Offers(fs(root.path), Prefix(ns, kind), name)
    ensures Finds(InRoot(fs, ns, kind, root), PluginId(ns, kind, name), root.source)
  {
    var es := fs(root.path).entries;
    var sorted := Sorting.Sort(ByName(), es);
    NamesAreOrdered();
    Sorting.SortIsSorted(ByName(), es);
    var e :| e in es && PluginNameOf(Prefix(ns, kind), e) == Some(name);
    assert e in multiset(sorted);
    InEntriesOffers(ns, kind, root.source, sorted, name);
    InEntriesSource(ns, kind, root.source, sorted);
  }

  lemma {:induction false} FindsConcat(a: seq<Found>, b: seq<Found>, id: PluginId, source: Source)
    requires Finds(a, id, source) || Finds(b, id, source)
    ensures Finds(a + b, id, source)
  {
    var f :| (f in a || f in b) && f.id == id && f.source == source;
    assert f in a + b;
  }

  lemma {:induction false} InRootsOffers(fs: FileSystem, ns: string, kind: string, roots: seq<SearchRoot>, k: nat,
                                         name: string)
    requires k < |roots| && Offers(fs(roots[k].path), Prefix(ns, kind), name)
    ensures Finds(InRoots(fs, ns, kind, roots), PluginId(ns, kind, name), roots[k].source)
  {
    var n := |roots| - 1;
    if k < n {
      InRootsOffers(fs, ns, kind, roots[..n], k, name);
    } else {
      InRootOffers(fs, ns, kind, roots[k], name);
    }
    FindsConcat(InRoots(fs, ns, kind, roots[..n]), InRoot(fs, ns, kind, roots[n]), PluginId(ns, kind, name),
                roots[k].source);
  }

  lemma {:induction false} NamesTotal(a: string, b: string)
    ensures NameLeq(a, b) || NameLeq(b, a)
  {
    if a != "" && b != "" {
      NamesTotal(a[1..], b[1..]);
    }
  }

  lemma {:induction false} NamesTransitive(a: string, b: string, c: string)
    requires NameLeq(a, b) && NameLeq(b, c)
    ensures NameLeq(a, c)
  {
    if a != "" && a[0] == b[0] == c[0] {
      NamesTransitive(a[1..], b[1..], c[1..]);
    }
  }

  lemma {:induction false} NamesAreOrdered()
    ensures Sorting.Total(ByName()) && Sorting.Transitive(ByName())
  {
    forall x, y ensures ByName()(x, y) || ByName()(y, x) {
      NamesTotal(x.name, y.name);
    }
    forall x, y, z | ByName()(x, y) && ByName()(y, z) ensures ByName()(x, z) {
      NamesTransitive(x.name, y.name, z.name);
    }
  }

  /** A directory was given, in a list of this tier. */
  predicate Listed(explicit: seq<Path>, env: Option<(string, seq<Path>)>, path: Option<seq<Path>>, p: Path,
                   tier: nat) {
    || (tier == 1 && p in explicit)
    || (tier == 2 && env.Some? && p in env.value.1)
    || (tier == 3 && path.Some? && p in path.value)
  }

  lemma {:induction false} ListedIsSearched(canonical: Canonical, explicit: seq<Path>, env: Option<(string, seq<Path>)>,
                                            path: Option<seq<Path>>, p: Path, tier: nat)
    requires Listed(explicit, env, path, p, tier)
    ensures Searched(canonical, Deduplicated(canonical, RawRoots(explicit, env, path)), p, tier)
  {
    RootsSearchAll(canonical, explicit, env, path);
  }

  /** Dropping a directory that is already searched loses no plugin and no tier: whatever a directory
      of any of the three lists offers is selected from a tier at least as good as that list's. */
  lemma {:induction false} NoTierIsLost(canonical: Canonical, fs: FileSystem, ns: string, kind: string,
                     explicit: seq<Path>, env: Option<(string, seq<Path>)>, path: Option<seq<Path>>,
                     overrides: seq<(string, Path)>, p: Path, tier: nat, name: string)
    requires forall a, b, n :: SameFile(canonical, a, b) && Offers(fs(a), Prefix(ns, kind), n) ==>
      Offers(fs(b), Prefix(ns, kind), n)
    requires Listed(explicit, env, path, p, tier) && Offers(fs(p), Prefix(ns, kind), name)
    ensures var roots := Deduplicated(canonical, RawRoots(explicit, env, path));
      var cs := Candidates(Scanned(fs, ns, kind, roots, overrides));
      exists c :: c in FirstWins(cs) && c.id == PluginId(ns, kind, name) && Tier(c.source) <= tier
  {
    var roots := Deduplicated(canonical, RawRoots(explicit, env, path));
    var found := Scanned(fs, ns, kind, roots, overrides);
    ListedIsSearched(canonical, explicit, env, path, p, tier);
    var r :| r in roots && SameFile(canonical, r.path, p) && Tier(r.source) <= tier;
    SameFileIsEquivalence(canonical, r.path, p, r.path);
    assert Offers(fs(r.path), Prefix(ns, kind), name);
    var k :| 0 <= k < |roots| && roots[k] == r;
    InRootsOffers(fs, ns, kind, roots, k, name);
    var f :| f in InRoots(fs, ns, kind, roots) && f.id == PluginId(ns, kind, name) && f.source == r.source;
    assert f in found;
    var m :| 0 <= m < |found| && found[m] == f;
    SelectedIsOfBestTier(canonical, fs, ns, kind, explicit, env, path, overrides, m);
  }

  // ---------- What a directory yields ----------

  /** The order of file names, character by character: a name comes before those it begins. */
  lemma {:induction false} NamesByCharacter(a: string, b: string)
    ensures NameLeq(a, b) <==> exists k :: 0 <= k <= |a| && NamesPartAt(a, b, k)
  {
    if a == "" {
      assert NamesPartAt(a, b, 0);
    } else if b != "" && a[0] == b[0] {
      NamesByCharacter(a[1..], b[1..]);
      if k :| 0 <= k <= |a[1..]| && NamesPartAt(a[1..], b[1..], k) {
        assert a[..k + 1] == [a[0]] + a[1..][..k] && b[..k + 1] == [b[0]] + b[1..][..k];
        assert NamesPartAt(a, b, k + 1);
      }
      if k :| 0 <= k <= |a| && NamesPartAt(a, b, k) {
        assert k > 0;
        assert a[1..][..k - 1] == a[..k][1..] && b[1..][..k - 1] == b[..k][1..];
        assert NamesPartAt(a[1..], b[1..], k - 1);
      }
    } else if b != "" && a[0] < b[0] {
      assert NamesPartAt(a, b, 0);
    }
  }

  /** Two names agree on their first `k` characters, and then the first ends or has the smaller one. */
  predicate NamesPartAt(a: string, b: string, k: nat)
    requires k <= |a|
  {
    k <= |b| && a[..k] == b[..k] && (k == |a| || (k < |b| && a[k] < b[k]))
  }

  predicate IsPluginFile(ns: string, kind: string, e: Entry, name: string) {
    e.executable && e.utf8 && e.name == ns + "-" + kind + "-" + name && ValidIdentifier(name, false)
  }

  /** What was found is an executable of the plugin's name in the directory. */
  ghost predicate FoundIn(ns: string, kind: string, root: SearchRoot, es: seq<Entry>, f: Found) {
    && f.id.ns == ns && f.id.kind == kind && f.source == root.source
    && exists e :: e in es && IsPluginFile(ns, kind, e, f.id.name) && f.path == e.path
  }

  lemma {:induction false} PluginNameIff(ns: string, kind: string, e: Entry, name: string)
    ensures PluginNameOf(Prefix(ns, kind), e) == Some(name) <==> IsPluginFile(ns, kind, e, name)
  {
    var prefix := Prefix(ns, kind);
    if prefix <= e.name {
      assert e.name == prefix + e.name[|prefix|..];
    }
    assert (prefix + name)[|prefix|..] == name && (prefix + name)[..|prefix|] == prefix;
  }

  lemma {:induction false} EntriesYield(ns: string, kind: string, root: SearchRoot, es: seq<Entry>)
    ensures forall f :: f in InEntries(ns, kind, root.source, es) <==> FoundIn(ns, kind, root, es, f)
  {
    if es != [] {
      var n := |es| - 1;
      EntriesYield(ns, kind, root, es[..n]);
      assert forall e :: e in es <==> e in es[..n] || e == es[n];
      forall name ensures PluginNameOf(Prefix(ns, kind), es[n]) == Some(name) <==> IsPluginFile(ns, kind, es[n], name) {
        PluginNameIff(ns, kind, es[n], name);
      }
    }
  }

  function FileName(id: PluginId): string {
    id.ns + "-" + id.kind + "-" + id.name
  }

  /** File names come in order, and in a real directory, where no two are equal, each once. */
  ghost predicate NamesAscend(fs: seq<Found>, strictly: bool) {
    forall i, j :: 0 <= i < j < |fs| ==>
      && NameLeq(FileName(fs[i].id), FileName(fs[j].id))
      && (strictly ==> fs[i].id != fs[j].id)
  }

  ghost predicate DistinctNames(es: seq<Entry>) {
    forall i, j :: 0 <= i < j < |es| ==> es[i].name != es[j].name
  }

  lemma {:induction false} EntriesAscend(ns: string, kind: string, root: SearchRoot, es: seq<Entry>)
    requires Sorting.Ordered(ByName(), es)
    ensures NamesAscend(InEntries(ns, kind, root.source, es), DistinctNames(es))
  {
    if es != [] {
      var n := |es| - 1;
      EntriesAscend(ns, kind, root, es[..n]);
      EntriesYield(ns, kind, root, es[..n]);
      EntriesYield(ns, kind, root, es);
      var before, all := InEntries(ns, kind, root.source, es[..n]), InEntries(ns, kind, root.source, es);
      var name := PluginNameOf(Prefix(ns, kind), es[n]);
      if name.Some? {
        PluginNameIff(ns, kind, es[n], name.value);
        var last := Found(PluginId(ns, kind, name.value), es[n].path, root.source);
        assert all == before + [last] && FileName(last.id) == es[n].name;
        forall i | 0 <= i < |before|
          ensures NameLeq(FileName(before[i].id), es[n].name) && (DistinctNames(es) ==> before[i].id != last.id)
        {
          EntryBefore(ns, kind, root, es, before[i]);
        }
      } else {
        assert all == before;
      }
      assert DistinctNames(es) ==> DistinctNames(es[..n]);
    }
  }

  lemma {:induction false} EntryBefore(ns: string, kind: string, root: SearchRoot, es: seq<Entry>, f: Found)
    requires es != [] && Sorting.Ordered(ByName(), es) && FoundIn(ns, kind, root, es[..|es| - 1], f)
    ensures NameLeq(FileName(f.id), es[|es| - 1].name)
    ensures DistinctNames(es) ==> FileName(f.id) != es[|es| - 1].name
  {
    var n := |es| - 1;
    var e :| e in es[..n] && IsPluginFile(ns, kind, e, f.id.name) && f.path == e.path;
    var i :| 0 <= i < n && es[i] == e;
    assert ByName()(es[i], es[n]);
  }

  lemma {:induction false} SortedStayDistinct(es: seq<Entry>)
    requires DistinctNames(es)
    ensures DistinctNames(Sorting.Sort(ByName(), es))
  {
    if es != [] {
      var n := |es| - 1;
      SortedStayDistinct(es[..n]);
      Sorting.SortKeeps(ByName(), es[..n]);
      var xs := Sorting.Sort(ByName(), es[..n]);
      forall i | 0 <= i < |xs| ensures xs[i].name != es[n].name {
        assert xs[i] in multiset(xs);
        assert xs[i] in es[..n];
      }
      PlacedDistinct(xs, es[n]);
    }
  }

  lemma {:induction false} PlacedDistinct(xs: seq<Entry>, e: Entry)
    requires DistinctNames(xs) && forall i :: 0 <= i < |xs| ==> xs[i].name != e.name
    ensures DistinctNames(Sorting.Place(ByName(), xs, e))
  {
    if xs != [] && !ByName()(xs[|xs| - 1], e) {
      var n := |xs| - 1;
      PlacedDistinct(xs[..n], e);
      Sorting.PlaceKeeps(ByName(), xs[..n], e);
      var ys := Sorting.Place(ByName(), xs[..n], e);
      forall i | 0 <= i < |ys| ensures ys[i].name != xs[n].name {
        assert ys[i] in multiset(ys);
        if ys[i] != e {
          assert ys[i] in multiset(xs[..n]);
          var j :| 0 <= j < n && xs[..n][j] == ys[i];
          assert xs[j].name != xs[n].name;
        }
      }
    }
  }

  /**
   A root yields exactly the executable files of its directory named after the namespace, the
   kind and a valid plugin name, in the order of those names, and nothing if it cannot be listed.
  */
  lemma {:induction false} RootYields(fs: FileSystem, ns: string, kind: string, root: SearchRoot)
    ensures var found := InRoot(fs, ns, kind, root);
      && (!fs(root.path).Listing? ==> found == [])
      && (fs(root.path).Listing? ==>
           var es := fs(root.path).entries;
           && (forall f :: f in found <==> FoundIn(ns, kind, root, es, f))
           && NamesAscend(found, DistinctNames(es)))
  {
    if fs(root.path).Listing? {
      var es := fs(root.path).entries;
      var sorted := Sorting.Sort(ByName(), es);
      NamesAreOrdered();
      Sorting.SortIsSorted(ByName(), es);
      assert forall e :: e in es <==> e in multiset(sorted);
      EntriesYield(ns, kind, root, sorted);
      EntriesAscend(ns, kind, root, sorted);
      if DistinctNames(es) {
        SortedStayDistinct(es);
      }
    }
  }
}
