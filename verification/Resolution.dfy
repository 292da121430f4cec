/** Resolution (`Registry::resolve_best` of crates/outboard-core/src/registry.rs). */
module Resolution {
  import opened Common
  import opened Manifest
  import opened Discovery
  import opened Cache
  import Sorting

  datatype Inspected = Inspected(candidate: Candidate, manifest: Manifest)

  /** What `inspect` finds for each candidate, and the application's score. */
  type Inspector = Candidate -> Inspection
  type Score = Inspected -> int

  datatype Reason = InspectFailed(error: InspectError) | Incompatible(issues: seq<Issue>)

  datatype Rejection = Rejection(candidate: Candidate, reason: Reason)

  datatype Resolution = Resolved(plugin: Inspected) | NoMatch(rejections: seq<Rejection>)

  /** A compatible candidate with its rank. */
  datatype Ranked = Ranked(score: int, precedence: nat, plugin: Inspected)

  /** The fixed inputs of one resolution. */
  datatype Query = Query(matches: Matches, inspect: Inspector, score: Score, req: PluginRequirement)

  predicate NameMatches(q: Query, c: Candidate) {
    q.req.name.None? || c.id.name == q.req.name.value
  }

  predicate Accepts(q: Query, c: Candidate) {
    NameMatches(q, c) && q.inspect(c).Ok? && Compatible(q.matches, q.inspect(c).value, q.req)
  }

  function ScoreOf(q: Query, c: Candidate): int
    requires q.inspect(c).Ok?
  {
    q.score(Inspected(c, q.inspect(c).value))
  }

  /** Greater score first, then lower precedence. */
  predicate Beats(q: Query, c: Candidate, d: Candidate)
    requires q.inspect(c).Ok? && q.inspect(d).Ok?
  {
    ScoreOf(q, c) > ScoreOf(q, d) || (ScoreOf(q, c) == ScoreOf(q, d) && c.precedence <= d.precedence)
  }

  /** The one accepted candidate that none beats. */
  ghost predicate Best(q: Query, selected: seq<Candidate>, c: Candidate) {
    && c in selected && Accepts(q, c)
    && forall d :: d in selected && Accepts(q, d) ==> Beats(q, c, d)
  }

  function RejectionOf(q: Query, c: Candidate): Rejection {
    match q.inspect(c)
    case Err(e) => Rejection(c, InspectFailed(e))
    case Ok(m) => Rejection(c, Incompatible(Issues(q.matches, m, q.req)))
  }

  /** One rejection for each name-matching candidate that is not accepted, in order. */
  function Rejections(q: Query, cs: seq<Candidate>): seq<Rejection> {
    if cs == [] then []
    else
      var c := cs[|cs| - 1];
      Rejections(q, cs[..|cs| - 1]) + if NameMatches(q, c) && !Accepts(q, c) then [RejectionOf(q, c)] else []
  }

  function RankOf(q: Query, c: Candidate): Ranked
    requires q.inspect(c).Ok?
  {
    Ranked(ScoreOf(q, c), c.precedence, Inspected(c, q.inspect(c).value))
  }

  function Accepted(q: Query, cs: seq<Candidate>): seq<Ranked> {
    if cs == [] then []
    else
      var c := cs[|cs| - 1];
      Accepted(q, cs[..|cs| - 1]) + if Accepts(q, c) then [RankOf(q, c)] else []
  }

  function ByRank(): Sorting.Order<Ranked> {
    (a: Ranked, b: Ranked) => a.score > b.score || (a.score == b.score && a.precedence <= b.precedence)
  }

  ghost predicate IsRankIn(q: Query, cs: seq<Candidate>, r: Ranked) {
    exists i :: 0 <= i < |cs| && Accepts(q, cs[i]) && r == RankOf(q, cs[i])
  }

  lemma {:induction false} AcceptedMembers(q: Query, cs: seq<Candidate>)
    ensures forall r :: r in Accepted(q, cs) <==> IsRankIn(q, cs, r)
  {
    if cs != [] {
      var n := |cs| - 1;
      AcceptedMembers(q, cs[..n]);
      forall r ensures r in Accepted(q, cs) <==> IsRankIn(q, cs, r) {
        if r in Accepted(q, cs[..n]) {
          var i :| 0 <= i < n && Accepts(q, cs[..n][i]) && r == RankOf(q, cs[..n][i]);
          assert Accepts(q, cs[i]) && r == RankOf(q, cs[i]);
        }
        if i :| 0 <= i < |cs| && Accepts(q, cs[i]) && r == RankOf(q, cs[i]) {
          if i < n {
            assert Accepts(q, cs[..n][i]) && r == RankOf(q, cs[..n][i]);
          }
        }
      }
    }
  }

  lemma {:induction false} RanksAreOrdered()
    ensures Sorting.Total(ByRank()) && Sorting.Transitive(ByRank())
  {
  }

  lemma {:induction false} SortedHead(all: seq<Ranked>)
    ensures var sorted := Sorting.Sort(ByRank(), all);
      && (sorted == [] <==> all == [])
      && (sorted != [] ==> sorted[0] in all && forall r :: r in all ==> ByRank()(sorted[0], r))
  {
    var sorted := Sorting.Sort(ByRank(), all);
    RanksAreOrdered();
    Sorting.SortIsSorted(ByRank(), all);
    assert |multiset(sorted)| == |sorted| && |multiset(all)| == |all|;
    if sorted != [] {
      assert sorted[0] in multiset(sorted);
      forall r | r in all ensures ByRank()(sorted[0], r) {
        assert r in multiset(sorted);
        var j :| 0 <= j < |sorted| && sorted[j] == r;
      }
    }
  }

  lemma {:induction false} AcceptsOne(q: Query, cs: seq<Candidate>)
    ensures Accepted(q, cs) == [] <==> forall i :: 0 <= i < |cs| ==> !Accepts(q, cs[i])
  {
    if cs != [] {
      var n := |cs| - 1;
      AcceptsOne(q, cs[..n]);
      assert forall i :: 0 <= i < n ==> cs[..n][i] == cs[i];
    }
  }

  /** The first of the sorted ranking is the best. */
  lemma {:induction false} FirstIsBest(q: Query, cs: seq<Candidate>)
    requires Accepted(q, cs) != []
    ensures Sorting.Sort(ByRank(), Accepted(q, cs)) != []
    ensures var p := Sorting.Sort(ByRank(), Accepted(q, cs))[0].plugin;
      Best(q, cs, p.candidate) && q.inspect(p.candidate) == Ok(p.manifest)
  {
    var all := Accepted(q, cs);
    SortedHead(all);
    AcceptedMembers(q, cs);
    var first := Sorting.Sort(ByRank(), all)[0];
    assert first in all;
    forall d | d in cs && Accepts(q, d) ensures ByRank()(first, RankOf(q, d)) {
      var i :| 0 <= i < |cs| && cs[i] == d;
      assert RankOf(q, cs[i]) in all;
    }
  }

  /** The query's inspections are what running each candidate's executable now would give. */
  ghost predicate InspectsIn(q: Query, w: World) {
    forall c :: q.inspect(c) == Fresh(w, c.id, c.path)
  }

  /** The calls that fail when the cache is written during one inspection. */
  type Faults = nat -> (Io, Io)

  /**
   * `resolve_best`, over the selected candidates of a discovery and through the manifest
   * cache; the query, which knows every inspection's outcome, is there for the contract only.
   */
  method ResolveBest(ghost truth: Truth, cache: ManifestCache, w: World, faults: Faults, ghost q: Query,
                     matches: Matches, score: Score, req: PluginRequirement, selected: seq<Candidate>)
    returns (r: Resolution)
    requires q == Query(matches, q.inspect, score, req) && InspectsIn(q, w)
    requires cache.Valid(truth) && CollisionFree(cache.hash) && LinkBlind(truth) && Faithful(truth, w)
    modifies cache`entries, cache.store
    ensures cache.Valid(truth)
    ensures r.Resolved? ==>
      Best(q, selected, r.plugin.candidate) && q.inspect(r.plugin.candidate) == Ok(r.plugin.manifest)
    ensures r.NoMatch? <==> forall i :: 0 <= i < |selected| ==> !Accepts(q, selected[i])
    ensures r.NoMatch? ==> r.rejections == Rejections(q, selected)
  {
    var rejected: seq<Rejection> := [];
    var ok: seq<Ranked> := [];
    for i := 0 to |selected|
      invariant cache.Valid(truth)
      invariant rejected == Rejections(q, selected[..i]) && ok == Accepted(q, selected[..i])
    {
      var c := selected[i];
      assert selected[..i + 1][..i] == selected[..i];
      if req.name.None? || c.id.name == req.name.value {
        var inspected := Inspect(truth, cache, Visit(w, w, c.id, c.path, faults(i).0, faults(i).1));
        assert inspected == q.inspect(c);
        match inspected {
          case Err(error) => rejected := rejected + [Rejection(c, InspectFailed(error))];
          case Ok(manifest) =>
            var issues := CompatibilityIssues(matches, manifest, req);
            if issues == [] {
              ok := ok + [Ranked(score(Inspected(c, manifest)), c.precedence, Inspected(c, manifest))];
            } else {
              rejected := rejected + [Rejection(c, Incompatible(issues))];
            }
        }
      }
    }
    assert selected[..|selected|] == selected;
    AcceptsOne(q, selected);
    SortedHead(ok);
    ok := Sorting.Sort(ByRank(), ok);
    if ok != [] {
      FirstIsBest(q, selected);
      r := Resolved(ok[0].plugin);
    } else {
      r := NoMatch(rejected);
    }
  }

  /** Precedences are positions in one scan, so at most one candidate is best. */
  lemma {:induction false} BestIsUnique(q: Query, selected: seq<Candidate>, c: Candidate, d: Candidate)
    requires Rising(selected) && Best(q, selected, c) && Best(q, selected, d)
    ensures c == d
  {
    var i :| 0 <= i < |selected| && selected[i] == c;
    var j :| 0 <= j < |selected| && selected[j] == d;
    assert Beats(q, c, d) && Beats(q, d, c);
  }

  /** A rejection gives the error of the candidate's inspection, or all the defects of its manifest. */
  ghost predicate SaysWhy(q: Query, c: Candidate, r: Rejection) {
    && r.candidate == c
    && match r.reason
       case InspectFailed(error) => q.inspect(c) == Err(error)
       case Incompatible(issues) =>
         && q.inspect(c).Ok? && issues != []
         && forall issue :: issue in issues <==> IsDefect(q.matches, q.inspect(c).value, q.req, issue)
  }

  lemma {:induction false} RejectionSaysWhy(q: Query, c: Candidate)
    requires NameMatches(q, c) && !Accepts(q, c)
    ensures SaysWhy(q, c, RejectionOf(q, c))
  {
    if q.inspect(c).Ok? {
      NoIssuesIffCompatible(q.matches, q.inspect(c).value, q.req);
      IssuesAreTheDefects(q.matches, q.inspect(c).value, q.req);
    }
  }

  lemma {:induction false} RejectionsCount(q: Query, cs: seq<Candidate>)
    requires forall i :: 0 <= i < |cs| ==> !Accepts(q, cs[i])
    ensures |Rejections(q, cs)| == |Named(q, cs)|
    ensures forall i :: 0 <= i < |Named(q, cs)| ==> SaysWhy(q, Named(q, cs)[i], Rejections(q, cs)[i])
  {
    if cs != [] {
      var n := |cs| - 1;
      assert forall i :: 0 <= i < n ==> cs[..n][i] == cs[i];
      RejectionsCount(q, cs[..n]);
      if NameMatches(q, cs[n]) {
        RejectionSaysWhy(q, cs[n]);
      }
    }
  }

  /** The candidates whose name the requirement allows. */
  function Named(q: Query, cs: seq<Candidate>): seq<Candidate> {
    if cs == [] then []
    else Named(q, cs[..|cs| - 1]) + if NameMatches(q, cs[|cs| - 1]) then [cs[|cs| - 1]] else []
  }

  /** Asking for one more capability never makes the winner rank higher. */
  lemma {:induction false} MoreCapabilitiesNeverImprove(q: Query, selected: seq<Candidate>,
                                                        extra: CapabilityRequirement, c: Candidate,
                                     d: Candidate)
    requires Best(q, selected, c)
    requires Best(q.(req := q.req.(capabilities := q.req.capabilities + [extra])), selected, d)
    ensures Beats(q, c, d)
  {
    MoreCapabilitiesFewerManifests(q.matches, q.inspect(d).value, q.req, extra);
    assert Accepts(q, d);
  }
}
