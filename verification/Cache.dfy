/**
 * The manifest cache (crates/outboard-core/src/cache.rs) and the inspection that goes
 * through it (`Registry::inspect` and `inspect_manifest_at` of
 * crates/outboard-core/src/registry.rs).
 */
module Cache {
  import opened Common
  import opened Manifest
  import opened Discovery

  const FORMAT: nat := 1

  /** Length and modification time of a file; 0 where the time is not available. */
  datatype Fingerprint = Fingerprint(len: nat, modifiedNanos: nat)

  datatype CachedEntry = CachedEntry(fingerprint: Fingerprint, manifest: Manifest)

  type Entries = map<string, CachedEntry>

  /** What running `__outboard manifest` gives; `stdout` is the manifest its bytes parse to. */
  datatype Output = NotStarted(error: string) | Exited(success: bool, stdout: Option<Manifest>, stderr: string)

  /** The file system at one moment: files are where paths lead, and are run by the paths given. */
  datatype World = World(canonical: Canonical, stat: Path -> Option<Fingerprint>, run: Path -> Output)

  datatype InspectError =
    | CommandFailed(error: string)
    | ManifestCommand(path: Path, stderr: string)
    | ManifestJson(path: Path)
    | ManifestInvalid(path: Path, problem: ManifestError)
    | IdentityMismatch(path: Path, discovered: PluginId, declared: PluginId)

  type Inspection = Result<Manifest, InspectError>

  function Located(w: World, path: Path): Path {
    var p := w.canonical(path);
    if p.Some? then p.value else path
  }

  function FingerprintOf(w: World, path: Path): Option<Fingerprint> {
    w.stat(Located(w, path))
  }

  function OutputOf(w: World, path: Path): Output {
    w.run(path)
  }

  /** The valid manifest an executable declares. */
  function Declared(o: Output): Option<Manifest> {
    if o.Exited? && o.success && o.stdout.Some? && ManifestProblem(o.stdout.value).None? then o.stdout else None
  }

  function CheckId(m: Manifest, id: PluginId, path: Path): Inspection {
    if m.id == id then Ok(m) else Err(IdentityMismatch(path, id, m.id))
  }

  /** What inspecting a candidate gives when no cache is there: run its executable now. */
  function Fresh(w: World, id: PluginId, path: Path): Inspection {
    match OutputOf(w, path)
    case NotStarted(error) => Err(CommandFailed(error))
    case Exited(success, stdout, stderr) =>
      if !success then Err(ManifestCommand(path, stderr))
      else if stdout.None? then Err(ManifestJson(path))
      else if ManifestProblem(stdout.value).Some? then Err(ManifestInvalid(path, ManifestProblem(stdout.value).value))
      else CheckId(stdout.value, id, path)
  }

  /** `inspect_manifest_at`. */
  method InspectManifestAt(w: World, id: PluginId, path: Path) returns (r: Inspection)
    ensures r == Fresh(w, id, path)
    ensures r.Ok? ==> Declared(OutputOf(w, path)) == Some(r.value) && r.value.id == id && ValidManifest(r.value)
  {
    var out := OutputOf(w, path);
    if out.NotStarted? {
      return Err(CommandFailed(out.error));
    }
    if !out.success {
      return Err(ManifestCommand(path, out.stderr));
    }
    if out.stdout.None? {
      return Err(ManifestJson(path));
    }
    var m := out.stdout.value;
    var valid := Validate(m);
    if valid.Err? {
      return Err(ManifestInvalid(path, valid.error));
    }
    if m.id != id {
      return Err(IdentityMismatch(path, id, m.id));
    }
    r := Ok(m);
  }

  // ---------- What a sound cache is ----------

  /** The hash under which a path's entry is kept. */
  type Hash = Path -> string

  ghost predicate CollisionFree(hash: Hash) {
    forall p, q :: hash(p) == hash(q) ==> p == q
  }

  /** What running `path` prints when it leads to a file at a place with a fingerprint, at any time. */
  type Truth = (Path, Path, Fingerprint) -> Output

  /** Fingerprints are faithful: a file that still has its fingerprint still prints the same. */
  ghost predicate Faithful(truth: Truth, w: World) {
    forall path :: FingerprintOf(w, path).Some? ==>
      OutputOf(w, path) == truth(path, Located(w, path), FingerprintOf(w, path).value)
  }

  /** A file declares the same manifest by whatever path it is run. */
  ghost predicate LinkBlind(truth: Truth) {
    forall a, b, at, fp :: Declared(truth(a, at, fp)) == Declared(truth(b, at, fp))
  }

  function KeyOf(hash: Hash, w: World, path: Path): string {
    hash(Located(w, path))
  }

  ghost predicate EntryTrue(truth: Truth, at: Path, e: CachedEntry) {
    forall path :: Declared(truth(path, at, e.fingerprint)) == Some(e.manifest)
  }

  /** Every entry holds what the file it was made from declares. */
  ghost predicate Sound(truth: Truth, hash: Hash, entries: Entries) {
    forall p :: hash(p) in entries ==> EntryTrue(truth, p, entries[hash(p)])
  }

  function Lookup(hash: Hash, entries: Entries, w: World, path: Path): Option<Manifest> {
    var fp := FingerprintOf(w, path);
    var key := KeyOf(hash, w, path);
    if fp.Some? && key in entries && entries[key].fingerprint == fp.value then Some(entries[key].manifest) else None
  }

  function Stored(hash: Hash, entries: Entries, w: World, path: Path, m: Manifest): Entries {
    var fp := FingerprintOf(w, path);
    if fp.Some? then entries[KeyOf(hash, w, path) := CachedEntry(fp.value, m)] else entries
  }

  /** A hit is what the executable there now would declare. */
  lemma {:induction false} HitIsTrue(truth: Truth, hash: Hash, entries: Entries, w: World, path: Path)
    requires Sound(truth, hash, entries) && Faithful(truth, w)
    requires Lookup(hash, entries, w, path).Some?
    ensures Declared(OutputOf(w, path)) == Lookup(hash, entries, w, path)
  {
    var p := Located(w, path);
    assert EntryTrue(truth, p, entries[hash(p)]);
  }

  /**
   Storing a manifest keeps the cache sound exactly when the file that is fingerprinted
   still declares it, or cannot be fingerprinted at all. An executable replaced after it
   ran and before its fingerprint is taken breaks this.
  */
  lemma {:induction false} StoredIsSoundIff(truth: Truth, hash: Hash, entries: Entries, w: World, path: Path,
                                            m: Manifest)
    requires CollisionFree(hash) && LinkBlind(truth) && Sound(truth, hash, entries) && Faithful(truth, w)
    ensures Sound(truth, hash, Stored(hash, entries, w, path, m)) <==>
      FingerprintOf(w, path).Some? ==> Declared(OutputOf(w, path)) == Some(m)
  {
    var fp := FingerprintOf(w, path);
    if fp.Some? {
      var stored := Stored(hash, entries, w, path, m);
      var at := Located(w, path);
      assert hash(at) in stored && stored[hash(at)] == CachedEntry(fp.value, m);
      assert OutputOf(w, path) == truth(path, at, fp.value);
      if Sound(truth, hash, stored) {
        assert EntryTrue(truth, at, stored[hash(at)]);
      } else {
        forall p | hash(p) in stored && p != at ensures EntryTrue(truth, p, stored[hash(p)]) {
          assert hash(p) in entries;
        }
      }
    }
  }

  /** A poisoned entry answers for the replaced executable for as long as its fingerprint stays. */
  lemma {:induction false} ReplacedDuringInspection(hash: Hash, entries: Entries, ran: World, stamped: World,
                                                    later: World, path: Path,
                                 m: Manifest)
    requires Declared(OutputOf(ran, path)) == Some(m)
    requires FingerprintOf(stamped, path).Some? && Declared(OutputOf(stamped, path)) != Some(m)
    requires Located(later, path) == Located(stamped, path)
    requires FingerprintOf(later, path) == FingerprintOf(stamped, path)
    requires OutputOf(later, path) == OutputOf(stamped, path)
    ensures Lookup(hash, Stored(hash, entries, stamped, path, m), later, path) == Some(m)
    ensures Fresh(later, m.id, path) != Ok(m)
  {
  }

  lemma {:induction false} WithoutIsSound(truth: Truth, hash: Hash, entries: Entries, key: string)
    requires Sound(truth, hash, entries)
    ensures Sound(truth, hash, entries - {key})
  {
    forall p | hash(p) in entries - {key} ensures EntryTrue(truth, p, (entries - {key})[hash(p)]) {
      assert hash(p) in entries;
    }
  }

  // ---------- The cache file ----------

  /** The contents of a file: a whole cache file, or anything else. */
  datatype Blob = CacheFile(formatVersion: nat, entries: Entries) | Unreadable

  /** Which of the calls of one persist succeed, and what a failed write leaves behind. */
  datatype Io = Io(mkdir: bool, write: bool, torn: Option<Blob>, rename: bool, remove: bool, renameAgain: bool)

  /** The cache file and its temporary, which outlive the process. */
  datatype Disk = Disk(file: Option<Blob>, tmp: Option<Blob>)

  function Loaded(file: Option<Blob>): Entries {
    if file.Some? && file.value.CacheFile? && file.value.formatVersion == FORMAT then file.value.entries else map[]
  }

  function Persisted(d: Disk, entries: Entries, io: Io): Disk {
    var whole := Some(CacheFile(FORMAT, entries));
    if !io.mkdir then d
    else if !io.write then d.(tmp := io.torn)
    else if io.rename then Disk(whole, None)
    else if d.file.None? || !io.remove then d.(tmp := whole)
    else if io.renameAgain then Disk(whole, None)
    else Disk(None, whole)
  }

  /** However a persist ends, the file is the old one, none, or the whole new one. */
  lemma {:induction false} PersistIsAllOrNothing(d: Disk, entries: Entries, io: Io)
    ensures Loaded(Persisted(d, entries, io).file) in {Loaded(d.file), map[], entries}
    ensures io.mkdir && io.write && io.rename ==> Loaded(Persisted(d, entries, io).file) == entries
  {
  }

  lemma {:induction false} PersistKeepsSound(truth: Truth, hash: Hash, d: Disk, entries: Entries, io: Io)
    requires Sound(truth, hash, entries) && Sound(truth, hash, Loaded(d.file))
    ensures Sound(truth, hash, Loaded(Persisted(d, entries, io).file))
  {
    PersistIsAllOrNothing(d, entries, io);
  }

  // ---------- What the cache does ----------

  datatype CacheMode = Disabled | Memory | OnDisk

  /** A cache and its files. */
  datatype State = State(mode: CacheMode, entries: Entries, disk: Disk)

  function Started(mode: CacheMode, disk: Disk): State {
    State(mode, if mode.OnDisk? then Loaded(disk.file) else map[], disk)
  }

  /** New entries, persisted if they are kept on disk. */
  function Changed(s: State, entries: Entries, io: Io): State {
    s.(entries := entries, disk := if s.mode.OnDisk? then Persisted(s.disk, entries, io) else s.disk)
  }

  function Hit(hash: Hash, s: State, w: World, path: Path): Option<Manifest> {
    if s.mode.Disabled? then None else Lookup(hash, s.entries, w, path)
  }

  function Inserted(hash: Hash, s: State, w: World, path: Path, m: Manifest, io: Io): State {
    if s.mode.Disabled? || FingerprintOf(w, path).None? then s else Changed(s, Stored(hash, s.entries, w, path, m), io)
  }

  function Invalidated(hash: Hash, s: State, w: World, path: Path, io: Io): State {
    if s.mode.Disabled? then s else Changed(s, s.entries - {KeyOf(hash, w, path)}, io)
  }

  function Cleared(s: State, io: Io): State {
    if s.mode.Disabled? then s else Changed(s, map[], io)
  }

  /**
   One inspection: the cache is consulted and the executable run in world `w`; an entry is
   stored or dropped in world `stamped`.
  */
  datatype Visit = Visit(w: World, stamped: World, id: PluginId, path: Path, onInsert: Io, onMismatch: Io)

  function Visited(hash: Hash, s: State, e: Visit): (Inspection, State) {
    var found := Hit(hash, s, e.w, e.path);
    if found.Some? then
      var m := found.value;
      (CheckId(m, e.id, e.path), if m.id == e.id then s else Invalidated(hash, s, e.stamped, e.path, e.onMismatch))
    else
      var now := Fresh(e.w, e.id, e.path);
      (now, if now.Ok? then Inserted(hash, s, e.stamped, e.path, now.value, e.onInsert) else s)
  }

  /**
   What can happen to a cache. Every event has its own file systems, so executables and
   links may be replaced between any two; Restart also stands for a crash, which leaves
   on disk whatever the calls that still succeeded left there.
  */
  datatype Event =
    | Inspecting(visit: Visit)
    | Invalidating(w: World, path: Path, io: Io)
    | Clearing(io: Io)
    | Restart(mode: CacheMode)

  function Performed(hash: Hash, s: State, e: Event): (Option<Inspection>, State) {
    match e
    case Inspecting(visit) =>
      var (r, s') := Visited(hash, s, visit);
      (Some(r), s')
    case Invalidating(w, path, io) => (None, Invalidated(hash, s, w, path, io))
    case Clearing(io) => (None, Cleared(s, io))
    case Restart(mode) => (None, Started(mode, s.disk))
  }

  function Played(hash: Hash, s: State, events: seq<Event>): (seq<Option<Inspection>>, State) {
    if events == [] then ([], s)
    else
      var n := |events| - 1;
      var (before, s') := Played(hash, s, events[..n]);
      var (r, s'') := Performed(hash, s', events[n]);
      (before + [r], s'')
  }

  // ---------- The cache is not noticed ----------

  /** Sound in memory, and sound in what the next process would load. */
  ghost predicate ValidState(truth: Truth, hash: Hash, s: State) {
    Sound(truth, hash, s.entries) && Sound(truth, hash, Loaded(s.disk.file))
  }

  /** Between the run and the fingerprint, the path still leads to a file that declares the same. */
  predicate Undisturbed(ran: World, stamped: World, path: Path) {
    FingerprintOf(stamped, path).Some? ==> Declared(OutputOf(stamped, path)) == Declared(OutputOf(ran, path))
  }

  ghost predicate VisitOk(truth: Truth, e: Visit) {
    Faithful(truth, e.w) && Faithful(truth, e.stamped) && Undisturbed(e.w, e.stamped, e.path)
  }

  ghost predicate EventOk(truth: Truth, e: Event) {
    e.Inspecting? ==> VisitOk(truth, e.visit)
  }

  lemma {:induction false} ChangedIsValid(truth: Truth, hash: Hash, s: State, entries: Entries, io: Io)
    requires ValidState(truth, hash, s) && Sound(truth, hash, entries)
    ensures ValidState(truth, hash, Changed(s, entries, io))
  {
    PersistKeepsSound(truth, hash, s.disk, entries, io);
  }

  lemma {:induction false} InvalidatedIsValid(truth: Truth, hash: Hash, s: State, w: World, path: Path, io: Io)
    requires ValidState(truth, hash, s)
    ensures ValidState(truth, hash, Invalidated(hash, s, w, path, io))
  {
    WithoutIsSound(truth, hash, s.entries, KeyOf(hash, w, path));
    ChangedIsValid(truth, hash, s, s.entries - {KeyOf(hash, w, path)}, io);
  }

  lemma {:induction false} FreshDeclares(w: World, id: PluginId, path: Path)
    requires Fresh(w, id, path).Ok?
    ensures Declared(OutputOf(w, path)) == Some(Fresh(w, id, path).value)
  {
  }

  /** An inspection through a sound cache answers as running the executable would. */
  lemma {:induction false} VisitIsFresh(truth: Truth, hash: Hash, s: State, e: Visit)
    requires CollisionFree(hash) && LinkBlind(truth) && ValidState(truth, hash, s) && VisitOk(truth, e)
    ensures Visited(hash, s, e).0 == Fresh(e.w, e.id, e.path)
    ensures ValidState(truth, hash, Visited(hash, s, e).1)
  {
    if Hit(hash, s, e.w, e.path).Some? {
      HitIsTrue(truth, hash, s.entries, e.w, e.path);
      InvalidatedIsValid(truth, hash, s, e.stamped, e.path, e.onMismatch);
    } else {
      var now := Fresh(e.w, e.id, e.path);
      if now.Ok? {
        FreshDeclares(e.w, e.id, e.path);
        StoredIsSoundIff(truth, hash, s.entries, e.stamped, e.path, now.value);
        ChangedIsValid(truth, hash, s, Stored(hash, s.entries, e.stamped, e.path, now.value), e.onInsert);
      }
    }
  }

  /** The calls of a persist by which the whole new file takes the place of the old one. */
  predicate PersistSucceeds(d: Disk, io: Io) {
    io.mkdir && io.write && (io.rename || (d.file.Some? && io.remove && io.renameAgain))
  }

  /** After a persist that succeeds, a new process finds exactly what this one does. */
  lemma {:induction false} RestartFindsTheSame(hash: Hash, s: State, entries: Entries, io: Io, w: World, path: Path)
    requires s.mode.OnDisk?
    ensures PersistSucceeds(s.disk, io) ==>
      var changed := Changed(s, entries, io);
      Hit(hash, Started(OnDisk, changed.disk), w, path) == Hit(hash, changed, w, path)
  {
  }

  /** What is found by `path` in this process, and by the next one if the change was persisted. */
  ghost predicate Finds(hash: Hash, s: State, io: Io, s': State, w: World, path: Path, found: Option<Manifest>) {
    && Hit(hash, s', w, path) == found
    && (s.mode.OnDisk? && PersistSucceeds(s.disk, io) ==> Hit(hash, Started(OnDisk, s'.disk), w, path) == found)
  }

  /** After clearing, nothing is found by any path. */
  lemma {:induction false} ClearForgetsAll(hash: Hash, s: State, io: Io, w: World, path: Path)
    ensures Finds(hash, s, io, Cleared(s, io), w, path, None)
  {
    if s.mode.OnDisk? {
      RestartFindsTheSame(hash, s, map[], io, w, path);
    }
  }

  /** After invalidating `path`, nothing is found where it led, by whatever path and in whatever
      world; everything else is found as before. */
  lemma {:induction false} InvalidateForgetsOne(hash: Hash, s: State, w: World, path: Path, io: Io, later: World,
                                                other: Path)
    requires CollisionFree(hash)
    ensures Finds(hash, s, io, Invalidated(hash, s, w, path, io), later, other,
                  if Located(later, other) == Located(w, path) then None else Hit(hash, s, later, other))
  {
    if s.mode.OnDisk? {
      RestartFindsTheSame(hash, s, s.entries - {KeyOf(hash, w, path)}, io, later, other);
    }
  }

  /** After an insert, the manifest is found by every path that leads to the same place while the
      fingerprint there is the one taken; everything else is found as before. */
  lemma {:induction false} InsertRemembersOne(hash: Hash, s: State, w: World, path: Path, m: Manifest, io: Io,
                                              later: World, other: Path)
    requires CollisionFree(hash) && !s.mode.Disabled? && FingerprintOf(w, path).Some?
    ensures Finds(hash, s, io, Inserted(hash, s, w, path, m, io), later, other,
                  if Located(later, other) != Located(w, path) then Hit(hash, s, later, other)
                  else if FingerprintOf(later, other) == FingerprintOf(w, path) then Some(m) else None)
  {
    if s.mode.OnDisk? {
      RestartFindsTheSame(hash, s, Stored(hash, s.entries, w, path, m), io, later, other);
    }
  }

  /** A missing file, a broken one and one of another format are all an empty cache. */
  lemma {:induction false} ForeignFileIsIgnored(hash: Hash, disk: Disk, w: World, path: Path)
    requires disk.file.Some? && disk.file.value.CacheFile? ==> disk.file.value.formatVersion != FORMAT
    ensures Hit(hash, Started(OnDisk, disk), w, path) == None
  {
  }

  /** Without the disk mode no event touches the files, and a disabled cache never finds anything. */
  lemma {:induction false} OnlyDiskModeWrites(hash: Hash, s: State, events: seq<Event>, w: World, path: Path)
    requires !s.mode.OnDisk? && forall i :: 0 <= i < |events| ==> !events[i].Restart?
    ensures var s' := Played(hash, s, events).1;
      s'.disk == s.disk && s'.mode == s.mode && (s.mode.Disabled? ==> Hit(hash, s', w, path) == None)
  {
    if events != [] {
      var n := |events| - 1;
      assert forall i :: 0 <= i < n ==> events[..n][i] == events[i];
      OnlyDiskModeWrites(hash, s, events[..n], w, path);
    }
  }

  /** In an unchanged world, the next inspection finds what this one returned. */
  lemma {:induction false} VisitIsRemembered(hash: Hash, s: State, e: Visit)
    requires !s.mode.Disabled? && e.w == e.stamped
    ensures var (r, s') := Visited(hash, s, e);
      Hit(hash, s', e.w, e.path) == if r.Ok? && FingerprintOf(e.w, e.path).Some? then Some(r.value) else None
  {
  }

  /** What the event returns when there is no cache. */
  function Uncached(e: Event): Option<Inspection> {
    if e.Inspecting? then Some(Fresh(e.visit.w, e.visit.id, e.visit.path)) else None
  }

  lemma {:induction false} PerformedIsUncached(truth: Truth, hash: Hash, s: State, e: Event)
    requires CollisionFree(hash) && LinkBlind(truth) && ValidState(truth, hash, s) && EventOk(truth, e)
    ensures Performed(hash, s, e).0 == Uncached(e) && ValidState(truth, hash, Performed(hash, s, e).1)
  {
    match e
    case Inspecting(visit) => VisitIsFresh(truth, hash, s, visit);
    case Invalidating(w, path, io) => InvalidatedIsValid(truth, hash, s, w, path, io);
    case Clearing(io) => ChangedIsValid(truth, hash, s, map[], io);
    case Restart(_) =>
  }

  /** Answers as if there were no cache. */
  ghost predicate Unnoticed(out: seq<Option<Inspection>>, events: seq<Event>) {
    |out| == |events| && forall i :: 0 <= i < |events| ==> out[i] == Uncached(events[i])
  }

  /** Whatever happens, and in whatever mode, every inspection answers as if there were no cache. */
  lemma {:induction false} PlayedIsUnnoticed(truth: Truth, hash: Hash, s: State, events: seq<Event>)
    requires CollisionFree(hash) && LinkBlind(truth) && ValidState(truth, hash, s)
    requires forall i :: 0 <= i < |events| ==> EventOk(truth, events[i])
    ensures Unnoticed(Played(hash, s, events).0, events) && ValidState(truth, hash, Played(hash, s, events).1)
  {
    if events != [] {
      var n := |events| - 1;
      PlayedIsUnnoticed(truth, hash, s, events[..n]);
      assert forall i :: 0 <= i < n ==> events[..n][i] == events[i];
      PerformedIsUncached(truth, hash, Played(hash, s, events[..n]).1, events[n]);
    }
  }

  /** One life of a cache, from a sound file and in faithful worlds, does not show that there is one. */
  ghost predicate LifeUnnoticed(truth: Truth, hash: Hash, mode: CacheMode, disk: Disk, events: seq<Event>) {
    Sound(truth, hash, Loaded(disk.file)) && (forall i :: 0 <= i < |events| ==> EventOk(truth, events[i])) ==>
      Unnoticed(Played(hash, Started(mode, disk), events).0, events)
  }

  ghost predicate Transparent(truth: Truth, hash: Hash) {
    forall mode, disk, events :: LifeUnnoticed(truth, hash, mode, disk, events)
  }

  const WORKS := Io(true, true, None, true, true, true)

  /** A world with one file, to which every path leads. */
  function OneFile(truth: Truth, at: Path, fp: Fingerprint): World {
    World(_ => Some(at), _ => Some(fp), path => truth(path, at, fp))
  }

  /** Inspecting one file by two paths, under the identity it declares by the first. */
  function TwoLinks(truth: Truth, at: Path, fp: Fingerprint, a: Path, b: Path, id: PluginId): seq<Event> {
    var w := OneFile(truth, at, fp);
    [Inspecting(Visit(w, w, id, a, WORKS, WORKS)), Inspecting(Visit(w, w, id, b, WORKS, WORKS))]
  }

  /** One executable that declares itself by the path it is run by shows the cache. */
  lemma {:induction false} LinksShow(truth: Truth, hash: Hash, at: Path, fp: Fingerprint, a: Path, b: Path, m: Manifest)
    requires Declared(truth(a, at, fp)) == Some(m) && Declared(truth(b, at, fp)) != Some(m)
    ensures var events := TwoLinks(truth, at, fp, a, b, m.id);
      && (forall i :: 0 <= i < |events| ==> EventOk(truth, events[i]))
      && !Unnoticed(Played(hash, Started(Memory, Disk(None, None)), events).0, events)
  {
    var w := OneFile(truth, at, fp);
    var events := TwoLinks(truth, at, fp, a, b, m.id);
    var s := Started(Memory, Disk(None, None));
    var first, second := events[0].visit, events[1].visit;
    assert Fresh(w, m.id, a) == Ok(m);
    var (r, s') := Visited(hash, s, first);
    VisitIsRemembered(hash, s, first);
    assert Hit(hash, s', w, b) == Hit(hash, s', w, a) == Some(m);
    assert Visited(hash, s', second).0 == Ok(m);
    assert Fresh(w, m.id, b) != Ok(m);
    TwoPlayed(hash, s, events);
  }

  /** So a multi-call executable, found under two names, is refused under the second. */
  lemma {:induction false} SecondNameRefused(truth: Truth, hash: Hash, at: Path, fp: Fingerprint, a: Path, b: Path,
                                             first: Manifest, second: Manifest)
    requires Declared(truth(a, at, fp)) == Some(first) && Declared(truth(b, at, fp)) == Some(second)
    requires first.id != second.id
    ensures var w := OneFile(truth, at, fp); var s := Started(Memory, Disk(None, None));
      var (_, s') := Visited(hash, s, Visit(w, w, first.id, a, WORKS, WORKS));
      && Visited(hash, s', Visit(w, w, second.id, b, WORKS, WORKS)).0 == Err(IdentityMismatch(b, second.id, first.id))
      && Fresh(w, second.id, b) == Ok(second)
  {
    var w := OneFile(truth, at, fp);
    var s := Started(Memory, Disk(None, None));
    var visit := Visit(w, w, first.id, a, WORKS, WORKS);
    assert Fresh(w, first.id, a) == Ok(first);
    VisitIsRemembered(hash, s, visit);
    assert Hit(hash, Visited(hash, s, visit).1, w, b) == Hit(hash, Visited(hash, s, visit).1, w, a);
  }

  lemma {:induction false} TwoPlayed(hash: Hash, s: State, events: seq<Event>)
    requires |events| == 2
    ensures var (r, s') := Performed(hash, s, events[0]);
      Played(hash, s, events).0 == [r, Performed(hash, s', events[1]).0]
  {
    assert events[..1] == [events[0]] && events[..1][..0] == [];
    var (r, s') := Performed(hash, s, events[0]);
    assert [] + [r] == [r];
    assert Played(hash, s, events[..1]) == ([r], s');
  }

  /** A cache is transparent if and only if no executable declares itself by the path it is run by. */
  lemma {:induction false} TransparentIffLinkBlind(truth: Truth, hash: Hash)
    requires CollisionFree(hash)
    ensures Transparent(truth, hash) <==> LinkBlind(truth)
  {
    if LinkBlind(truth) {
      forall mode, disk, events ensures LifeUnnoticed(truth, hash, mode, disk, events) {
        if Sound(truth, hash, Loaded(disk.file)) && forall i :: 0 <= i < |events| ==> EventOk(truth, events[i]) {
          PlayedIsUnnoticed(truth, hash, Started(mode, disk), events);
        }
      }
    } else {
      var a, b, at, fp :| Declared(truth(a, at, fp)) != Declared(truth(b, at, fp));
      if Declared(truth(a, at, fp)).Some? {
        ShowsLinks(truth, hash, at, fp, a, b);
      } else {
        ShowsLinks(truth, hash, at, fp, b, a);
      }
    }
  }

  lemma {:induction false} ShowsLinks(truth: Truth, hash: Hash, at: Path, fp: Fingerprint, a: Path, b: Path)
    requires Declared(truth(a, at, fp)).Some? && Declared(truth(a, at, fp)) != Declared(truth(b, at, fp))
    ensures !Transparent(truth, hash)
  {
    var m := Declared(truth(a, at, fp)).value;
    LinksShow(truth, hash, at, fp, a, b, m);
    var events := TwoLinks(truth, at, fp, a, b, m.id);
    var disk := Disk(None, None);
    assert Sound(truth, hash, Loaded(disk.file));
    assert !LifeUnnoticed(truth, hash, Memory, disk, events);
  }

  // ---------- The cache as it is written ----------

  class CacheStore {
    var disk: Disk

    constructor (d: Disk)
      ensures disk == d
    {
      disk := d;
    }
  }

  class ManifestCache {
    const enabled: bool
    const onDisk: bool
    const store: CacheStore
    const hash: Hash
    var entries: Entries

    ghost function Now(): State
      reads this, store
    {
      State(if !enabled then Disabled else if onDisk then OnDisk else Memory, entries, store.disk)
    }

    ghost predicate Valid(truth: Truth)
      reads this, store
    {
      ValidState(truth, hash, Now())
    }

    constructor (mode: CacheMode, s: CacheStore, h: Hash)
      ensures store == s && hash == h && Now() == Started(mode, s.disk)
    {
      enabled, onDisk, store, hash := !mode.Disabled?, mode.OnDisk?, s, h;
      entries := if mode.OnDisk? then Loaded(s.disk.file) else map[];
    }

    /** From a sound cache, what the executable declares now. */
    method Get(w: World, path: Path) returns (r: Option<Manifest>)
      ensures r == Hit(hash, Now(), w, path)
      ensures forall truth :: r.Some? && Valid(truth) && Faithful(truth, w) ==> Declared(OutputOf(w, path)) == r
    {
      if !enabled {
        return None;
      }
      var fp := FingerprintOf(w, path);
      var key := KeyOf(hash, w, path);
      if fp.None? || key !in entries || entries[key].fingerprint != fp.value {
        return None;
      }
      r := Some(entries[key].manifest);
      forall truth | Valid(truth) && Faithful(truth, w) ensures Declared(OutputOf(w, path)) == r {
        HitIsTrue(truth, hash, entries, w, path);
      }
    }

    /** Write a temporary and rename it over the file, removing the file first where that is refused. */
    method Persist(io: Io)
      modifies store
      ensures store.disk == if onDisk then Persisted(old(store.disk), entries, io) else old(store.disk)
    {
      if !onDisk || !io.mkdir {
        return;
      }
      var whole := Some(CacheFile(FORMAT, entries));
      if !io.write {
        store.disk := store.disk.(tmp := io.torn);
        return;
      }
      store.disk := store.disk.(tmp := whole);
      if io.rename {
        store.disk := Disk(store.disk.tmp, None);
      } else if store.disk.file.Some? {
        if !io.remove {
          return;
        }
        store.disk := store.disk.(file := None);
        if io.renameAgain {
          store.disk := Disk(store.disk.tmp, None);
        }
      }
    }

    method Insert(w: World, path: Path, m: Manifest, io: Io)
      modifies this`entries, store
      ensures Now() == Inserted(hash, old(Now()), w, path, m, io)
    {
      if !enabled {
        return;
      }
      var fp := FingerprintOf(w, path);
      if fp.None? {
        return;
      }
      entries := entries[KeyOf(hash, w, path) := CachedEntry(fp.value, m)];
      Persist(io);
    }

    method Invalidate(w: World, path: Path, io: Io)
      modifies this`entries, store
      ensures Now() == Invalidated(hash, old(Now()), w, path, io)
    {
      if !enabled {
        return;
      }
      entries := entries - {KeyOf(hash, w, path)};
      Persist(io);
    }

    method Clear(io: Io)
      modifies this`entries, store
      ensures Now() == Cleared(old(Now()), io)
    {
      if !enabled {
        return;
      }
      entries := map[];
      Persist(io);
    }
  }

  /** `Registry::inspect`. */
  method Inspect(ghost truth: Truth, cache: ManifestCache, e: Visit) returns (r: Inspection)
    modifies cache`entries, cache.store
    ensures (r, cache.Now()) == Visited(cache.hash, old(cache.Now()), e)
    ensures CollisionFree(cache.hash) && LinkBlind(truth) && old(cache.Valid(truth)) && VisitOk(truth, e) ==>
      r == Fresh(e.w, e.id, e.path) && cache.Valid(truth)
  {
    ghost var before := cache.Now();
    var found := cache.Get(e.w, e.path);
    if found.Some? {
      r := CheckId(found.value, e.id, e.path);
      if found.value.id != e.id {
        cache.Invalidate(e.stamped, e.path, e.onMismatch);
      }
    } else {
      r := InspectManifestAt(e.w, e.id, e.path);
      if r.Ok? {
        cache.Insert(e.stamped, e.path, r.value, e.onInsert);
      }
    }
    if CollisionFree(cache.hash) && LinkBlind(truth) && ValidState(truth, cache.hash, before) && VisitOk(truth, e) {
      VisitIsFresh(truth, cache.hash, before, e);
    }
  }

  /** The life of a cache, through any number of processes. */
  method Run(ghost truth: Truth, hash: Hash, store: CacheStore, mode: CacheMode, events: seq<Event>)
    returns (out: seq<Option<Inspection>>)
    modifies store
    ensures out == Played(hash, Started(mode, old(store.disk)), events).0
    ensures (&& CollisionFree(hash) && LinkBlind(truth) && Sound(truth, hash, Loaded(old(store.disk).file))
             && forall i :: 0 <= i < |events| ==> EventOk(truth, events[i])) ==>
      Unnoticed(out, events) && Sound(truth, hash, Loaded(store.disk.file))
  {
    ghost var first := Started(mode, store.disk);
    out := [];
    var cache := new ManifestCache(mode, store, hash);
    for k := 0 to |events|
      invariant fresh(cache) && cache.store == store && cache.hash == hash
      invariant (out, cache.Now()) == Played(hash, first, events[..k])
    {
      var e := events[k];
      assert events[..k + 1][..k] == events[..k];
      var r: Option<Inspection> := None;
      match e {
        case Inspecting(visit) =>
          var inspected := Inspect(truth, cache, visit);
          r := Some(inspected);
        case Invalidating(w, path, io) => cache.Invalidate(w, path, io);
        case Clearing(io) => cache.Clear(io);
        case Restart(next) => cache := new ManifestCache(next, store, hash);
      }
      out := out + [r];
    }
    assert events[..|events|] == events;
    if CollisionFree(hash) && LinkBlind(truth) && ValidState(truth, hash, first)
       && (forall i :: 0 <= i < |events| ==> EventOk(truth, events[i])) {
      PlayedIsUnnoticed(truth, hash, first, events);
    }
  }
}
