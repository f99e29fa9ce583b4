/**
 * `createReferenceDatabase` of the random implementation: the reference
 * templates of a TemplateArchive are written out as one file each under
 * the database directory, in the directory `getDirectoryForIdentifier`
 * names.
 *
 * The file system is a value: a map from paths to files and directories,
 * passed in and returned. The worker threads run one after the other, in
 * the order their futures are collected; the iteration order of the
 * `unordered_map` is an input.
 */
module ReferenceDatabase {
  import opened Wrappers
  import opened Text
  import opened Elft
  import opened RandTemplate

  datatype Node = File(bytes: seq<byte>) | Dir

  type FileSystem = map<Path, Node>

  /** The root (the empty path) is always a directory. */
  predicate IsDirectory(fs: FileSystem, p: Path) { p == [] || (p in fs && fs[p].Dir?) }

  predicate Exists(fs: FileSystem, p: Path) { p == [] || p in fs }

  function Parent(p: Path): Path
    requires p != []
  {
    p[..|p| - 1]
  }

  /** Everything in the file system sits in a directory. */
  predicate Valid(fs: FileSystem)
  {
    forall p :: p in fs ==> p != [] && IsDirectory(fs, Parent(p))
  }

  function PathText(p: Path): string { Join(p, "/") }

  /** The directories `d` and above it, up to the root (excluded). */
  function Prefixes(d: Path): set<Path>
  {
    set i | 1 <= i <= |d| :: d[..i]
  }

  /** A file stands where `create_directories(d)` needs a directory. */
  predicate Blocked(fs: FileSystem, d: Path)
  {
    exists i :: 1 <= i <= |d| && d[..i] in fs && fs[d[..i]].File?
  }

  /**
   * The start of libstdc++'s `filesystem_error::what()` for this case. The
   * text is implementation-defined; the ` [<path>]` that libstdc++ appends
   * after it is not modelled.
   */
  const NotADirectory := "filesystem error: cannot create directories: Not a directory"

  /**
   * `std::filesystem::create_directories`: throws when a file stands on the
   * way, otherwise adds every missing directory of `d`.
   */
  function CreateDirectories(fs: FileSystem, d: Path): Outcome<FileSystem>
  {
    if Blocked(fs, d) then Raised(NotADirectory)
    else Ok(map p | p in fs.Keys + Prefixes(d) :: if p in fs then fs[p] else Dir)
  }

  /**
   * `writeTemplate(directory, data)`: refuses when a non-directory already
   * exists at `directory`, otherwise creates the directories if needed and
   * writes `data`, truncating, to `directory/<identifier embedded in data>`.
   * Opening the file fails when a directory has that name. Write errors of
   * the stream are not modelled.
   */
  function WriteTemplate(fs: FileSystem, directory: Path, data: seq<byte>): (Outcome<ReturnStatus>, FileSystem)
    requires WellFormed(data)
  {
    var identifier := ParseTemplateSpec(data)[0].candidateIdentifier;
    if !IsDirectory(fs, directory) && Exists(fs, directory) then
      (Ok(ReturnStatus(Failure, Some("Unexpected file at " + PathText(directory)))), fs)
    else
      var created := if IsDirectory(fs, directory) then Ok(fs) else CreateDirectories(fs, directory);
      if created.Raised? then (Raised(created.what), fs)
      else
        var fs1 := created.value;
        var target := directory + [identifier];
        if target in fs1 && fs1[target].Dir? then
          (Ok(ReturnStatus(Failure, Some("Unable to create template identifier '" + identifier + "'"))), fs1)
        else (Ok(DefaultStatus), fs1[target := File(data)])
  }

  lemma {:induction false} PrefixParent(d: Path, p: Path)
    requires p in Prefixes(d)
    ensures p != [] && |p| <= |d| && p == d[..|p|]
    ensures Parent(p) == [] || Parent(p) in Prefixes(d)
  {
    var i :| 1 <= i <= |d| && p == d[..i];
    if i > 1 {
      assert Parent(p) == d[..i - 1];
    }
  }

  /** What `create_directories` leaves behind when it succeeds. */
  lemma {:induction false} CreateDirectoriesEffect(fs: FileSystem, d: Path)
    requires Valid(fs) && !Blocked(fs, d)
    ensures var fs1 := CreateDirectories(fs, d).value;
      Valid(fs1) && IsDirectory(fs1, d) &&
      (forall p :: p in fs ==> p in fs1 && fs1[p] == fs[p]) &&
      (forall p :: p in fs1 && p !in fs ==> p in Prefixes(d) && fs1[p] == Dir)
  {
    var fs1 := CreateDirectories(fs, d).value;
    forall p | p in fs1
      ensures p != [] && IsDirectory(fs1, Parent(p))
    {
      if p in fs {
        assert IsDirectory(fs, Parent(p));
      } else {
        PrefixParent(d, p);
        var q := Parent(p);
        if q != [] && q in fs {
          var i := |q|;
          assert q == d[..i];
          assert !fs[q].File?;
        }
      }
    }
    if d != [] {
      assert d[..|d|] == d;
      assert d in Prefixes(d);
    }
  }

  /**
   * `writeTemplate` keeps the file system well formed; on success the file
   * holds exactly the template, and nothing that existed before changes
   * except that file. Anything new is that file or a directory on its way.
   * A non-directory at `directory` is reported and leaves the file system
   * as it was.
   */
  lemma {:induction false} WriteTemplateEffect(fs: FileSystem, directory: Path, data: seq<byte>)
    requires Valid(fs) && WellFormed(data)
    ensures var (o, fs') := WriteTemplate(fs, directory, data);
      var target := directory + [ParseTemplateSpec(data)[0].candidateIdentifier];
      Valid(fs') &&
      (o.Ok? && o.value.result == Success <==> o == Ok(DefaultStatus)) &&
      (!IsDirectory(fs, directory) && Exists(fs, directory) ==>
        fs' == fs && o.Ok? && o.value.result == Failure) &&
      (o == Ok(DefaultStatus) ==> target in fs' && fs'[target] == File(data)) &&
      (o != Ok(DefaultStatus) ==> forall p :: p in fs ==> p in fs' && fs'[p] == fs[p]) &&
      (forall p :: p in fs && p != target ==> p in fs' && fs'[p] == fs[p]) &&
      (forall p :: p in fs' && p !in fs ==> p == target || (p in Prefixes(directory) && fs'[p] == Dir))
  {
    if !IsDirectory(fs, directory) && Exists(fs, directory) {
    } else if IsDirectory(fs, directory) {
      WriteIntoDirectory(fs, directory, data);
    } else if !Blocked(fs, directory) {
      CreateDirectoriesEffect(fs, directory);
      WriteIntoDirectory(CreateDirectories(fs, directory).value, directory, data);
      WriteAfterCreating(fs, directory, data);
    }
  }

  /** Writing `data` into the directory `directory` of a well-formed `fs1`. */
  lemma {:induction false} WriteIntoDirectory(fs1: FileSystem, directory: Path, data: seq<byte>)
    requires Valid(fs1) && WellFormed(data) && IsDirectory(fs1, directory)
    ensures var (o, fs') := WriteTemplate(fs1, directory, data);
      var target := directory + [ParseTemplateSpec(data)[0].candidateIdentifier];
      Valid(fs') &&
      (o == Ok(DefaultStatus) ==> fs' == fs1[target := File(data)]) &&
      (o != Ok(DefaultStatus) ==> o.Ok? && o.value.result == Failure && fs' == fs1)
  {
    var target := directory + [ParseTemplateSpec(data)[0].candidateIdentifier];
    assert Parent(target) == directory;
  }

  /** Creating the directories first and then writing, seen from `fs`. */
  lemma {:induction false} WriteAfterCreating(fs: FileSystem, directory: Path, data: seq<byte>)
    requires Valid(fs) && WellFormed(data) && !Exists(fs, directory) && !Blocked(fs, directory)
    ensures var fs1 := CreateDirectories(fs, directory).value;
      WriteTemplate(fs, directory, data) == WriteTemplate(fs1, directory, data)
  {
    var fs1 := CreateDirectories(fs, directory).value;
    CreateDirectoriesEffect(fs, directory);
  }

  // ---- the manifest ----

  /**
   * The manifest read into a map: a later line for the same identifier
   * replaces the earlier one.
   */
  function ManifestMap(manifest: seq<ManifestEntry>): map<string, ManifestEntry>
  {
    if manifest == [] then map[]
    else ManifestMap(manifest[..|manifest| - 1])[manifest[|manifest| - 1].identifier := manifest[|manifest| - 1]]
  }

  /** The manifest-reading loop of `createReferenceDatabase`. */
  method LoadManifest(manifest: seq<ManifestEntry>) returns (templates: map<string, ManifestEntry>)
    ensures templates == ManifestMap(manifest)
  {
    templates := map[];
    var i := 0;
    while i < |manifest|
      invariant 0 <= i <= |manifest|
      invariant templates == ManifestMap(manifest[..i])
    {
      assert manifest[..i + 1][..i] == manifest[..i];
      templates := templates[manifest[i].identifier := manifest[i]];
      i := i + 1;
    }
    assert manifest[..i] == manifest;
  }

  /**
   * An identifier is in the map exactly when some manifest line names it,
   * and it maps to the last such line.
   */
  lemma {:induction false} ManifestLastWins(manifest: seq<ManifestEntry>, id: string)
    ensures id in ManifestMap(manifest) <==> exists k :: 0 <= k < |manifest| && manifest[k].identifier == id
    ensures id in ManifestMap(manifest) ==>
      exists k :: 0 <= k < |manifest| && manifest[k] == ManifestMap(manifest)[id] &&
        manifest[k].identifier == id && (forall j :: k < j < |manifest| ==> manifest[j].identifier != id)
  {
    if manifest != [] {
      var init := manifest[..|manifest| - 1];
      var last := manifest[|manifest| - 1];
      ManifestLastWins(init, id);
      if last.identifier != id {
        if id in ManifestMap(init) {
          var k :| 0 <= k < |init| && init[k] == ManifestMap(init)[id] &&
            init[k].identifier == id && forall j :: k < j < |init| ==> init[j].identifier != id;
          assert manifest[k] == init[k];
        }
        if exists k :: 0 <= k < |manifest| && manifest[k].identifier == id {
          var k :| 0 <= k < |manifest| && manifest[k].identifier == id;
          assert init[k] == manifest[k];
        }
      } else {
        assert manifest[|manifest| - 1] == ManifestMap(manifest)[id];
      }
    }
  }

  // ---- one worker ----

  /** The bytes of the template a manifest entry points at. */
  function TemplateAt(archive: seq<byte>, e: ManifestEntry): seq<byte>
    requires e.offset + e.length <= |archive|
  {
    archive[e.offset..e.offset + e.length]
  }

  /** The entry lies inside the archive and points at a template `parseTemplate` can read. */
  predicate LoadableEntry(archive: seq<byte>, e: ManifestEntry)
  {
    e.offset + e.length <= |archive| && WellFormed(TemplateAt(archive, e))
  }

  predicate Loadable(archive: seq<byte>, m: map<string, ManifestEntry>)
  {
    forall id :: id in m ==> LoadableEntry(archive, m[id])
  }

  /**
   * A manifest line whose template is shorter than four bytes (the
   * identifier's terminator and one record header), and which no later line
   * overrides, makes the archive not loadable. The zero-byte file the driver
   * writes for a failed creation gives such a line, and `getDirectoryForTemplate`
   * reads past its end.
   */
  lemma {:induction false} ShortTemplateNotLoadable(archive: seq<byte>, manifest: seq<ManifestEntry>, k: nat)
    requires k < |manifest| && manifest[k].length < 4
    requires forall j :: k < j < |manifest| ==> manifest[j].identifier != manifest[k].identifier
    ensures !Loadable(archive, ManifestMap(manifest))
  {
    var id := manifest[k].identifier;
    ManifestLastWins(manifest, id);
    var k' :| 0 <= k' < |manifest| && manifest[k'] == ManifestMap(manifest)[id] &&
      manifest[k'].identifier == id && (forall j :: k' < j < |manifest| ==> manifest[j].identifier != id);
    assert k' == k;
    assert !LoadableEntry(archive, ManifestMap(manifest)[id]);
  }

  /**
   * The manifest without its zero-byte templates: what the build has to read
   * once failed creations, which have no template to store, are skipped.
   */
  function Filled(manifest: seq<ManifestEntry>): (r: seq<ManifestEntry>)
    ensures forall e :: e in r <==> e in manifest && e.length != 0
  {
    if manifest == [] then []
    else
      var last := manifest[|manifest| - 1];
      assert manifest == manifest[..|manifest| - 1] + [last];
      Filled(manifest[..|manifest| - 1]) + (if last.length != 0 then [last] else [])
  }

  /**
   * Skipping the zero-byte templates makes the archive loadable whenever every
   * template that was created is, so the build's precondition then holds.
   */
  lemma {:induction false} FilledLoadable(archive: seq<byte>, manifest: seq<ManifestEntry>)
    requires forall k :: 0 <= k < |manifest| && manifest[k].length != 0 ==> LoadableEntry(archive, manifest[k])
    ensures Loadable(archive, ManifestMap(Filled(manifest)))
  {
    var filled := Filled(manifest);
    forall id | id in ManifestMap(filled)
      ensures LoadableEntry(archive, ManifestMap(filled)[id])
    {
      ManifestLastWins(filled, id);
      var k :| 0 <= k < |filled| && filled[k] == ManifestMap(filled)[id] && filled[k].identifier == id &&
        (forall j :: k < j < |filled| ==> filled[j].identifier != id);
      assert filled[k] in filled;
      var i :| 0 <= i < |manifest| && manifest[i] == filled[k];
    }
  }

  /** Where the worker writes the template of `id`. */
  function TargetOf(archive: seq<byte>, m: map<string, ManifestEntry>, dbDir: Path, id: string): Path
    requires Loadable(archive, m) && id in m
  {
    WrittenPath(dbDir, TemplateAt(archive, m[id]))
  }

  /** What a worker does with one identifier: its status and the file system after. */
  type Step = (FileSystem, string) -> (Outcome<ReturnStatus>, FileSystem)

  /**
   * The body of the worker's `for_each` for one entry: read the template
   * at its offset and write it with `writeTemplate` under `dbDir`. (An
   * identifier without a loadable entry is never handed to it.)
   */
  function WriteEntry(archive: seq<byte>, dbDir: Path, m: map<string, ManifestEntry>, fs: FileSystem, id: string)
    : (Outcome<ReturnStatus>, FileSystem)
  {
    if id in m && LoadableEntry(archive, m[id]) then
      var t := TemplateAt(archive, m[id]);
      WriteTemplate(fs, dbDir + DirectoryForTemplate(t), t)
    else (Ok(DefaultStatus), fs)
  }

  function Writer(archive: seq<byte>, dbDir: Path, m: map<string, ManifestEntry>): Step
  {
    (fs: FileSystem, id: string) => WriteEntry(archive, dbDir, m, fs, id)
  }

  /**
   * A worker over `keys`: runs `step` on each in turn and stops at the
   * first exception or non-Success status, which it returns; the default
   * status when every step succeeded.
   */
  function Run(step: Step, fs: FileSystem, keys: seq<string>): (Outcome<ReturnStatus>, FileSystem)
    decreases |keys|
  {
    if keys == [] then (Ok(DefaultStatus), fs)
    else
      var (o, fs1) := step(fs, keys[0]);
      if o.Raised? || o.value.result != Success then (o, fs1)
      else Run(step, fs1, keys[1..])
  }

  /** `threadWrite` over `keys`. */
  function ThreadWriteSpec(fs: FileSystem, archive: seq<byte>, dbDir: Path, m: map<string, ManifestEntry>, keys: seq<string>)
    : (Outcome<ReturnStatus>, FileSystem)
    requires Loadable(archive, m) && Keyed(keys, m)
  {
    Run(Writer(archive, dbDir, m), fs, keys)
  }

  /** `threadWrite`: the `for_each` over one chunk of the map. */
  method ThreadWrite(fs: FileSystem, archive: seq<byte>, dbDir: Path, m: map<string, ManifestEntry>, keys: seq<string>)
    returns (r: Outcome<ReturnStatus>, fs': FileSystem)
    requires Loadable(archive, m) && Keyed(keys, m)
    ensures (r, fs') == ThreadWriteSpec(fs, archive, dbDir, m, keys)
  {
    ghost var step := Writer(archive, dbDir, m);
    fs' := fs;
    var i := 0;
    while i < |keys|
      invariant 0 <= i <= |keys|
      invariant Run(step, fs', keys[i..]) == Run(step, fs, keys)
    {
      assert keys[i..][1..] == keys[i + 1..];
      assert LoadableEntry(archive, m[keys[i]]);
      var combinedTemplate := archive[m[keys[i]].offset..m[keys[i]].offset + m[keys[i]].length];
      var (rs, written) := WriteTemplate(fs', dbDir + DirectoryForTemplate(combinedTemplate), combinedTemplate);
      assert step(fs', keys[i]) == (rs, written);
      fs' := written;
      if rs.Raised? || rs.value.result != Success {
        return rs, fs';
      }
      i := i + 1;
    }
    return Ok(DefaultStatus), fs';
  }

  /**
   * A worker stops at its first failure: after a failing prefix nothing
   * more runs, and after a successful prefix the rest runs on what the
   * prefix left.
   */
  lemma {:induction false} RunAppend(step: Step, fs: FileSystem, a: seq<string>, b: seq<string>)
    ensures var (o, fs1) := Run(step, fs, a);
      Run(step, fs, a + b) == if o == Ok(DefaultStatus) then Run(step, fs1, b) else (o, fs1)
    decreases |a|
  {
    if a == [] {
      assert a + b == b;
    } else {
      assert (a + b)[0] == a[0];
      assert (a + b)[1..] == a[1..] + b;
      RunAppend(step, step(fs, a[0]).1, a[1..], b);
    }
  }

  /** A worker's status is the default one, an exception, or a non-Success status. */
  lemma {:induction false} RunStatus(step: Step, fs: FileSystem, keys: seq<string>)
    ensures var o := Run(step, fs, keys).0;
      o == Ok(DefaultStatus) || o.Raised? || o.value.result != Success
    decreases |keys|
  {
    if keys != [] {
      var (o, fs1) := step(fs, keys[0]);
      if !(o.Raised? || o.value.result != Success) {
        RunStatus(step, fs1, keys[1..]);
      }
    }
  }

  /** The worker writes each template where the search will look for it. */
  predicate DistinctTargets(archive: seq<byte>, m: map<string, ManifestEntry>, dbDir: Path, keys: seq<string>)
    requires Loadable(archive, m) && Keyed(keys, m)
  {
    forall i, j :: 0 <= i < j < |keys| ==> TargetOf(archive, m, dbDir, keys[i]) != TargetOf(archive, m, dbDir, keys[j])
  }

  /** One write of the worker, through `WriteTemplate`. */
  lemma {:induction false} WriterStep(fs: FileSystem, archive: seq<byte>, dbDir: Path, m: map<string, ManifestEntry>, id: string)
    requires Valid(fs) && Loadable(archive, m) && id in m
    ensures var (o, fs1) := Writer(archive, dbDir, m)(fs, id);
      var target := TargetOf(archive, m, dbDir, id);
      Valid(fs1) &&
      (o.Ok? && o.value.result == Success <==> o == Ok(DefaultStatus)) &&
      (o == Ok(DefaultStatus) ==> target in fs1 && fs1[target] == File(TemplateAt(archive, m[id]))) &&
      (forall p :: p in fs && p != target ==> p in fs1 && fs1[p] == fs[p])
  {
    var t := TemplateAt(archive, m[id]);
    var directory := dbDir + DirectoryForTemplate(t);
    WriteTemplateEffect(fs, directory, t);
    assert TargetOf(archive, m, dbDir, id) == directory + [ParseTemplateSpec(t)[0].candidateIdentifier];
  }

  /**
   * A worker that succeeds has written every template of its chunk, byte for
   * byte, at the path of the identifier embedded in it (when no two
   * templates share that path), and left everything else as it was.
   */
  lemma {:induction false} ThreadWriteWritesAll(fs: FileSystem, archive: seq<byte>, dbDir: Path, m: map<string, ManifestEntry>, keys: seq<string>)
    requires Valid(fs) && Loadable(archive, m) && Keyed(keys, m)
    requires ThreadWriteSpec(fs, archive, dbDir, m, keys).0 == Ok(DefaultStatus)
    requires DistinctTargets(archive, m, dbDir, keys)
    ensures var fs' := ThreadWriteSpec(fs, archive, dbDir, m, keys).1;
      Valid(fs') &&
      (forall i :: 0 <= i < |keys| ==>
        TargetOf(archive, m, dbDir, keys[i]) in fs' &&
        fs'[TargetOf(archive, m, dbDir, keys[i])] == File(TemplateAt(archive, m[keys[i]]))) &&
      (forall p :: p in fs && (forall i :: 0 <= i < |keys| ==> p != TargetOf(archive, m, dbDir, keys[i])) ==>
        p in fs' && fs'[p] == fs[p])
    decreases |keys|
  {
    if keys != [] {
      var step := Writer(archive, dbDir, m);
      WriterStep(fs, archive, dbDir, m, keys[0]);
      var fs1 := step(fs, keys[0]).1;
      var rest := keys[1..];
      assert forall i :: 0 <= i < |rest| ==> rest[i] == keys[i + 1];
      assert Run(step, fs, keys) == Run(step, fs1, rest);
      ThreadWriteWritesAll(fs1, archive, dbDir, m, rest);
      var fs' := Run(step, fs1, rest).1;
      var t0 := TargetOf(archive, m, dbDir, keys[0]);
      forall i | 0 <= i < |keys|
        ensures TargetOf(archive, m, dbDir, keys[i]) in fs'
        ensures fs'[TargetOf(archive, m, dbDir, keys[i])] == File(TemplateAt(archive, m[keys[i]]))
      {
        if i > 0 {
          assert keys[i] == rest[i - 1];
        } else {
          assert forall j :: 0 <= j < |rest| ==> t0 != TargetOf(archive, m, dbDir, rest[j]);
        }
      }
      forall p | p in fs && (forall i :: 0 <= i < |keys| ==> p != TargetOf(archive, m, dbDir, keys[i]))
        ensures p in fs' && fs'[p] == fs[p]
      {
        assert p != t0;
        assert forall j :: 0 <= j < |rest| ==> p != TargetOf(archive, m, dbDir, rest[j]);
      }
    }
  }

  /** Every identifier of `order` has an entry. */
  predicate Keyed(order: seq<string>, m: map<string, ManifestEntry>)
  {
    forall i :: 0 <= i < |order| ==> order[i] in m
  }

  // ---- partitioning the map among the threads ----

  const PtrdiffMax := 0x7FFF_FFFF_FFFF_FFFF

  /**
   * `i * per`, by repeated addition: where chunk `i` starts when every
   * chunk before it holds `per` entries.
   */
  function StartOf(per: nat, i: nat): nat
  {
    if i == 0 then 0 else StartOf(per, i - 1) + per
  }

  lemma {:induction false} StartOfProduct(per: nat, i: nat)
    ensures StartOf(per, i) == i * per
  {
    if i > 0 {
      StartOfProduct(per, i - 1);
      assert i * per == (i - 1) * per + per;
    }
  }

  /** `tmplPerThread`, `n / k`, by repeated subtraction. */
  function PerThread(n: nat, k: nat): nat
    requires k >= 1
    decreases n
  {
    if n < k then 0 else 1 + PerThread(n - k, k)
  }

  lemma {:induction false} PerThreadIsQuotient(n: nat, k: nat)
    requires k >= 1
    ensures PerThread(n, k) == n / k
    decreases n
  {
    if n >= k {
      PerThreadIsQuotient(n - k, k);
      var q, r := (n - k) / k, (n - k) % k;
      assert n - k == q * k + r;
      assert n == (q + 1) * k + r;
      DivUnique(n, k, q + 1, r);
    } else {
      DivUnique(n, k, 0, n);
    }
  }

  lemma {:induction false} DivUnique(n: nat, k: nat, q: nat, r: nat)
    requires k >= 1 && n == q * k + r && r < k
    ensures n / k == q
  {
    var q', r' := n / k, n % k;
    assert n == q' * k + r';
    assert (q' + 1) * k == q' * k + k;
    assert (q + 1) * k == q * k + k;
    MulLe(q' + 1, q, k);
    MulLe(q + 1, q', k);
  }

  lemma {:induction false} MulLe(a: nat, b: nat, k: nat)
    ensures a <= b ==> a * k <= b * k
  {
  }

  /** No chunk starts past the end: `i * (n / k) <= n` for `i <= k`. */
  lemma {:induction false} StartOfBound(n: nat, k: nat, i: nat)
    requires 1 <= k && i <= k
    ensures StartOf(PerThread(n, k), i) <= n
  {
    PerThreadIsQuotient(n, k);
    var per := n / k;
    StartOfProduct(per, i);
    MulLe(i, k, per);
    assert k * per <= n;
  }

  /**
   * Where chunk `i` of `k` starts in an iteration of `n` entries:
   * `i * (n / k)`, except that the end of the last chunk is `n`.
   */
  function Boundary(n: nat, k: nat, i: nat): (b: nat)
    requires 1 <= k && i <= k
    ensures b <= n
  {
    if i == k then n
    else
      assert StartOf(PerThread(n, k), i) <= n by { StartOfBound(n, k, i); }
      StartOf(PerThread(n, k), i)
  }

  /** Consecutive chunks meet, and a chunk before the last has `n / k` entries. */
  lemma {:induction false} BoundaryStep(n: nat, k: nat, i: nat)
    requires 1 <= k && i < k
    ensures Boundary(n, k, i) <= Boundary(n, k, i + 1)
    ensures i + 1 < k ==> Boundary(n, k, i + 1) - Boundary(n, k, i) == n / k
    ensures i + 1 == k ==> Boundary(n, k, i + 1) - Boundary(n, k, i) >= n / k
  {
    PerThreadIsQuotient(n, k);
    if i + 1 == k {
      StartOfBound(n, k, k);
    }
  }

  /** Chunk `i` of `numCores`: the entries between two boundaries. */
  function Chunk(order: seq<string>, numCores: nat, i: nat): (c: seq<string>)
    requires numCores >= 1 && i < numCores
  {
    var n := |order|;
    assert Boundary(n, numCores, i) <= Boundary(n, numCores, i + 1) by { BoundaryStep(n, numCores, i); }
    order[Boundary(n, numCores, i)..Boundary(n, numCores, i + 1)]
  }

  /** The first `count` chunks, one after the other. */
  function FlattenKeys(chunks: seq<seq<string>>, count: nat): seq<string>
    requires count <= |chunks|
  {
    if count == 0 then [] else FlattenKeys(chunks, count - 1) + chunks[count - 1]
  }

  /** The `numCores` chunks of the map's iteration order. */
  function Chunks(order: seq<string>, numCores: nat): (r: seq<seq<string>>)
    requires numCores >= 1
    ensures |r| == numCores && forall i :: 0 <= i < numCores ==> r[i] == Chunk(order, numCores, i)
  {
    seq(numCores, i requires 0 <= i < numCores => Chunk(order, numCores, i))
  }

  lemma {:induction false} ChunksPrefix(order: seq<string>, numCores: nat, count: nat)
    requires 1 <= numCores && count <= numCores
    ensures FlattenKeys(Chunks(order, numCores), count) == order[..Boundary(|order|, numCores, count)]
  {
    if count > 0 {
      var n := |order|;
      ChunksPrefix(order, numCores, count - 1);
      BoundaryStep(n, numCores, count - 1);
      var lo := Boundary(n, numCores, count - 1);
      var hi := Boundary(n, numCores, count);
      var chunks := Chunks(order, numCores);
      assert chunks[count - 1] == order[lo..hi];
      FlattenKeysStep(chunks, count, order, lo, hi);
    } else {
      assert Boundary(|order|, numCores, 0) == 0;
    }
  }

  lemma {:induction false} FlattenKeysStep(chunks: seq<seq<string>>, count: nat, order: seq<string>, lo: nat, hi: nat)
    requires 0 < count <= |chunks| && lo <= hi <= |order|
    requires FlattenKeys(chunks, count - 1) == order[..lo] && chunks[count - 1] == order[lo..hi]
    ensures FlattenKeys(chunks, count) == order[..hi]
  {
    assert order[..lo] + order[lo..hi] == order[..hi];
  }

  /**
   * The chunks are disjoint and cover the map: in order, they are exactly
   * its iteration order. All but the last have `n / numCores` entries; the
   * last takes the remainder too.
   */
  lemma {:induction false} ChunksPartition(order: seq<string>, numCores: nat)
    requires numCores >= 1
    ensures FlattenKeys(Chunks(order, numCores), numCores) == order
    ensures forall i :: 0 <= i < numCores - 1 ==> |Chunk(order, numCores, i)| == |order| / numCores
    ensures |Chunk(order, numCores, numCores - 1)| == |order| - (numCores - 1) * (|order| / numCores) >= |order| / numCores
  {
    ChunksPrefix(order, numCores, numCores);
    assert order[..|order|] == order;
    forall i | 0 <= i < numCores - 1
      ensures |Chunk(order, numCores, i)| == |order| / numCores
    {
      BoundaryStep(|order|, numCores, i);
    }
    LastChunkSize(order, numCores);
  }

  /** The last chunk runs from `(numCores - 1) * (n / numCores)` to the end. */
  lemma {:induction false} LastChunkSize(order: seq<string>, numCores: nat)
    requires numCores >= 1
    ensures |Chunk(order, numCores, numCores - 1)| == |order| - (numCores - 1) * (|order| / numCores) >= |order| / numCores
  {
    var n := |order|;
    PerThreadIsQuotient(n, numCores);
    StartOfProduct(n / numCores, numCores - 1);
    BoundaryStep(n, numCores, numCores - 1);
    assert Boundary(n, numCores, numCores - 1) == (numCores - 1) * (n / numCores);
  }

  /**
   * The first thread index for which `(i + 1) * tmplPerThread` exceeds
   * PTRDIFF_MAX, or `numCores` when there is none.
   */
  function FirstOverflow(per: nat, numCores: nat, i: nat): (k: nat)
    requires i <= numCores
    ensures i <= k <= numCores
    ensures forall j :: i <= j < k ==> FitsPtrdiff(per, j)
    ensures k < numCores ==> !FitsPtrdiff(per, k)
    decreases numCores - i
  {
    if i == numCores then numCores
    else if !FitsPtrdiff(per, i) then i
    else FirstOverflow(per, numCores, i + 1)
  }

  /** The end of chunk `i`, `(i + 1) * tmplPerThread`, fits a `ptrdiff_t`. */
  predicate FitsPtrdiff(per: nat, i: nat) { (i + 1) * per <= PtrdiffMax }

  /** With fewer than PTRDIFF_MAX entries the size check never fires. */
  lemma {:induction false} NoOverflowForRealMaps(order: seq<string>, numCores: nat)
    requires numCores >= 1 && |order| <= PtrdiffMax
    ensures FirstOverflow(PerThread(|order|, numCores), numCores, 0) == numCores
  {
    var k := FirstOverflow(PerThread(|order|, numCores), numCores, 0);
    if k < numCores {
      StartOfBound(|order|, numCores, k + 1);
      StartOfProduct(PerThread(|order|, numCores), k + 1);
    }
  }

  lemma {:induction false} ChunkKeyed(order: seq<string>, m: map<string, ManifestEntry>, numCores: nat, i: nat)
    requires Keyed(order, m) && 1 <= numCores && i < numCores
    ensures Keyed(Chunk(order, numCores, i), m)
  {
    var c := Chunk(order, numCores, i);
    var lo := Boundary(|order|, numCores, i);
    forall j | 0 <= j < |c|
      ensures c[j] in m
    {
      assert c[j] == order[lo + j];
    }
  }

  /** The first `count` workers, one per chunk, run one after the other. */
  function Workers(step: Step, fs: FileSystem, chunks: seq<seq<string>>, count: nat): (r: (seq<Outcome<ReturnStatus>>, FileSystem))
    requires count <= |chunks|
    ensures |r.0| == count
  {
    if count == 0 then ([], fs)
    else
      var (results, fs1) := Workers(step, fs, chunks, count - 1);
      var (o, fs2) := Run(step, fs1, chunks[count - 1]);
      (results + [o], fs2)
  }

  /** The `threadWrite` workers of `createReferenceDatabase`. */
  function Launched(fs: FileSystem, archive: seq<byte>, dbDir: Path, m: map<string, ManifestEntry>,
                    order: seq<string>, numCores: nat, count: nat): (r: (seq<Outcome<ReturnStatus>>, FileSystem))
    requires Loadable(archive, m) && Keyed(order, m)
    requires 1 <= numCores && count <= numCores
  {
    Workers(Writer(archive, dbDir, m), fs, Chunks(order, numCores), count)
  }

  /** One more worker: it runs the next chunk on the file system the earlier ones left. */
  lemma {:induction false} LaunchedStep(fs: FileSystem, archive: seq<byte>, dbDir: Path, m: map<string, ManifestEntry>,
                     order: seq<string>, numCores: nat, i: nat)
    requires 1 <= numCores && i < numCores
    requires Loadable(archive, m) && Keyed(order, m) && Keyed(Chunk(order, numCores, i), m)
    ensures var before := Launched(fs, archive, dbDir, m, order, numCores, i);
      var worker := ThreadWriteSpec(before.1, archive, dbDir, m, Chunk(order, numCores, i));
      Launched(fs, archive, dbDir, m, order, numCores, i + 1) == (before.0 + [worker.0], worker.1)
  {
    assert Chunks(order, numCores)[i] == Chunk(order, numCores, i);
  }

  /**
   * The launching loop: one worker per chunk, until the iterator-size check
   * fails; the workers already launched still run to completion.
   */
  method LaunchWorkers(fs: FileSystem, archive: seq<byte>, dbDir: Path, m: map<string, ManifestEntry>,
                       order: seq<string>, numCores: nat)
    returns (results: seq<Outcome<ReturnStatus>>, fs': FileSystem, tooLarge: bool)
    requires Loadable(archive, m) && Keyed(order, m) && numCores >= 1
    ensures var k := FirstOverflow(PerThread(|order|, numCores), numCores, 0);
      tooLarge == (k < numCores) && (results, fs') == Launched(fs, archive, dbDir, m, order, numCores, k)
  {
    var tmplPerThread := |order| / numCores;
    PerThreadIsQuotient(|order|, numCores);
    results := [];
    fs' := fs;
    var i := 0;
    while i < numCores
      invariant 0 <= i <= numCores
      invariant FirstOverflow(tmplPerThread, numCores, 0) == FirstOverflow(tmplPerThread, numCores, i)
      invariant (results, fs') == Launched(fs, archive, dbDir, m, order, numCores, i)
    {
      if (i + 1) * tmplPerThread > PtrdiffMax {
        return results, fs', true;
      }
      var chunk := Chunk(order, numCores, i);
      ChunkKeyed(order, m, numCores, i);
      LaunchedStep(fs, archive, dbDir, m, order, numCores, i);
      var o;
      o, fs' := ThreadWrite(fs', archive, dbDir, m, chunk);
      results := results + [o];
      i := i + 1;
    }
    return results, fs', false;
  }

  // ---- collecting the threads' statuses ----

  /** What the collecting loop keeps of thread `i`'s status. */
  function Absorb(rs: ReturnStatus, i: nat, f: ReturnStatus): ReturnStatus
  {
    ReturnStatus(
      if f.result != Success then Failure else rs.result,
      if f.message.Some? then Some("Thread " + NatToString(i) + ": " + f.message.value + " ") else rs.message)
  }

  /** The collecting loop from thread `i` on, with `rs` gathered so far; `get()` rethrows. */
  function GatherFrom(results: seq<Outcome<ReturnStatus>>, i: nat, rs: ReturnStatus): Outcome<ReturnStatus>
    requires i <= |results|
    decreases |results| - i
  {
    if i == |results| then Ok(rs)
    else match results[i]
      case Raised(what) => Raised(what)
      case Ok(f) => GatherFrom(results, i + 1, Absorb(rs, i, f))
  }

  /** The trailing space of the message goes. */
  function DropLastSpace(rs: ReturnStatus): ReturnStatus
  {
    if rs.message.Some? && rs.message.value != [] then rs.(message := Some(rs.message.value[..|rs.message.value| - 1])) else rs
  }

  function Collect(results: seq<Outcome<ReturnStatus>>): Outcome<ReturnStatus>
  {
    match GatherFrom(results, 0, DefaultStatus)
    case Raised(what) => Raised(what)
    case Ok(rs) => Ok(DropLastSpace(rs))
  }

  /** The collecting loop over the futures. */
  method CollectStatuses(results: seq<Outcome<ReturnStatus>>) returns (r: Outcome<ReturnStatus>)
    ensures r == Collect(results)
  {
    var rs := DefaultStatus;
    var i := 0;
    while i < |results|
      invariant 0 <= i <= |results|
      invariant GatherFrom(results, i, rs) == GatherFrom(results, 0, DefaultStatus)
    {
      match results[i] {
        case Raised(what) =>
          return Raised(what);
        case Ok(futureRS) =>
          if futureRS.message.Some? {
            rs := rs.(message := Some("Thread " + NatToString(i) + ": " + futureRS.message.value + " "));
          }
          if futureRS.result != Success {
            rs := rs.(result := Failure);
          }
      }
      i := i + 1;
    }
    if rs.message.Some? && rs.message.value != [] {
      rs := rs.(message := Some(rs.message.value[..|rs.message.value| - 1]));
    }
    return Ok(rs);
  }

  /** The first exception a thread let escape is the one rethrown. */
  lemma {:induction false} GatherRaised(results: seq<Outcome<ReturnStatus>>, i: nat, rs: ReturnStatus)
    requires i <= |results|
    ensures GatherFrom(results, i, rs).Raised? <==> exists j :: i <= j < |results| && results[j].Raised?
    ensures GatherFrom(results, i, rs).Raised? ==>
      exists j :: i <= j < |results| && results[j] == GatherFrom(results, i, rs) &&
        forall l :: i <= l < j ==> results[l].Ok?
    decreases |results| - i
  {
    if i < |results| {
      if results[i].Ok? {
        var next := Absorb(rs, i, results[i].value);
        GatherRaised(results, i + 1, next);
        assert GatherFrom(results, i, rs) == GatherFrom(results, i + 1, next);
        if exists j :: i <= j < |results| && results[j].Raised? {
          var j :| i <= j < |results| && results[j].Raised?;
          assert i + 1 <= j;
        }
        if GatherFrom(results, i, rs).Raised? {
          var j :| i + 1 <= j < |results| && results[j] == GatherFrom(results, i + 1, next) &&
            forall l :: i + 1 <= l < j ==> results[l].Ok?;
          assert forall l :: i <= l < j ==> results[l].Ok?;
        }
      } else {
        assert results[i] == GatherFrom(results, i, rs);
      }
    }
  }

  /** The gathered result is Failure exactly when some thread failed. */
  lemma {:induction false} GatherResult(results: seq<Outcome<ReturnStatus>>, i: nat, rs: ReturnStatus)
    requires i <= |results| && (rs.result == Success || rs.result == Failure)
    requires forall j :: i <= j < |results| ==> results[j].Ok?
    ensures GatherFrom(results, i, rs).Ok?
    ensures var g := GatherFrom(results, i, rs).value;
      (g.result == Success || g.result == Failure) &&
      (g.result == Success <==> rs.result == Success && forall j :: i <= j < |results| ==> results[j].value.result == Success)
    decreases |results| - i
  {
    if i < |results| {
      GatherResult(results, i + 1, Absorb(rs, i, results[i].value));
    }
  }

  /**
   * Messages are overwritten, not appended: the gathered message is the
   * last thread's that had one, or what was there before when none had.
   */
  lemma {:induction false} GatherMessage(results: seq<Outcome<ReturnStatus>>, i: nat, rs: ReturnStatus)
    requires i <= |results|
    requires forall j :: i <= j < |results| ==> results[j].Ok?
    ensures GatherFrom(results, i, rs).Ok?
    ensures var g := GatherFrom(results, i, rs).value;
      ((forall j :: i <= j < |results| ==> results[j].value.message.None?) ==> g.message == rs.message) &&
      (forall j :: (i <= j < |results| && results[j].value.message.Some? &&
        (forall l :: j < l < |results| ==> results[l].value.message.None?)) ==>
        g.message == Some("Thread " + NatToString(j) + ": " + results[j].value.message.value + " "))
  {
    GatherKeepsMessage(results, i, rs);
    forall j | i <= j < |results| && results[j].value.message.Some? &&
      (forall l :: j < l < |results| ==> results[l].value.message.None?)
      ensures GatherFrom(results, i, rs).value.message ==
        Some("Thread " + NatToString(j) + ": " + results[j].value.message.value + " ")
    {
      GatherLastMessage(results, i, rs, j);
    }
  }

  /** With no message from `i` on, the gathered message is the one so far. */
  lemma {:induction false} GatherKeepsMessage(results: seq<Outcome<ReturnStatus>>, i: nat, rs: ReturnStatus)
    requires i <= |results|
    requires forall j :: i <= j < |results| ==> results[j].Ok?
    ensures GatherFrom(results, i, rs).Ok?
    ensures (forall j :: i <= j < |results| ==> results[j].value.message.None?) ==>
      GatherFrom(results, i, rs).value.message == rs.message
    decreases |results| - i
  {
    if i < |results| {
      GatherKeepsMessage(results, i + 1, Absorb(rs, i, results[i].value));
    }
  }

  /** The message of thread `j`, the last one with a message, is the one gathered. */
  lemma {:induction false} GatherLastMessage(results: seq<Outcome<ReturnStatus>>, i: nat, rs: ReturnStatus, j: nat)
    requires i <= j < |results|
    requires forall k :: i <= k < |results| ==> results[k].Ok?
    requires results[j].value.message.Some? && forall l :: j < l < |results| ==> results[l].value.message.None?
    ensures GatherFrom(results, i, rs).Ok?
    ensures GatherFrom(results, i, rs).value.message ==
      Some("Thread " + NatToString(j) + ": " + results[j].value.message.value + " ")
    decreases |results| - i
  {
    var next := Absorb(rs, i, results[i].value);
    if i < j {
      GatherLastMessage(results, i + 1, next, j);
    } else {
      GatherKeepsMessage(results, i + 1, next);
    }
  }

  /**
   * The aggregate status: an exception when some thread threw (the first
   * one); otherwise Failure exactly when some thread failed, and the
   * message of the last thread that had one, as "Thread i: message".
   */
  lemma {:induction false} CollectStates(results: seq<Outcome<ReturnStatus>>)
    ensures Collect(results).Raised? <==> exists j :: 0 <= j < |results| && results[j].Raised?
    ensures Collect(results).Raised? ==>
      exists j :: 0 <= j < |results| && results[j] == Collect(results) && forall l :: 0 <= l < j ==> results[l].Ok?
    ensures Collect(results).Ok? ==>
      (forall j :: 0 <= j < |results| ==> results[j].Ok?) &&
      (Collect(results).value.result == Success || Collect(results).value.result == Failure) &&
      (Collect(results).value.result == Success <==> forall j :: 0 <= j < |results| ==> results[j].value.result == Success) &&
      ((forall j :: 0 <= j < |results| ==> results[j].value.message.None?) ==> Collect(results).value.message.None?) &&
      (forall j :: (0 <= j < |results| && results[j].value.message.Some? &&
        (forall l :: j < l < |results| ==> results[l].value.message.None?)) ==>
        Collect(results).value.message == Some("Thread " + NatToString(j) + ": " + results[j].value.message.value))
  {
    GatherRaised(results, 0, DefaultStatus);
    if GatherFrom(results, 0, DefaultStatus).Ok? {
      GatherResult(results, 0, DefaultStatus);
      GatherMessage(results, 0, DefaultStatus);
      forall j | 0 <= j < |results| && results[j].value.message.Some? &&
        (forall l :: j < l < |results| ==> results[l].value.message.None?)
        ensures Collect(results).value.message == Some("Thread " + NatToString(j) + ": " + results[j].value.message.value)
      {
        var text := "Thread " + NatToString(j) + ": " + results[j].value.message.value;
        assert (text + " ")[..|text + " "| - 1] == text;
      }
    }
  }

  // ---- agreement of the threads with one pass ----

  /** One more worker, on the chunk after those already run. */
  lemma {:induction false} AgreeStep(step: Step, fs: FileSystem, a: seq<string>, b: seq<string>, results: seq<Outcome<ReturnStatus>>, fs1: FileSystem)
    requires forall j :: 0 <= j < |results| ==> results[j].Ok? && results[j].value.result == Success ==> results[j] == Ok(DefaultStatus)
    requires (forall j :: 0 <= j < |results| ==> results[j] == Ok(DefaultStatus)) <==> Run(step, fs, a).0 == Ok(DefaultStatus)
    requires Run(step, fs, a).0 == Ok(DefaultStatus) ==> fs1 == Run(step, fs, a).1
    ensures var last := Run(step, fs1, b);
      var results' := results + [last.0];
      var single := Run(step, fs, a + b);
      (forall j :: 0 <= j < |results'| ==> results'[j].Ok? && results'[j].value.result == Success ==> results'[j] == Ok(DefaultStatus)) &&
      ((forall j :: 0 <= j < |results'| ==> results'[j] == Ok(DefaultStatus)) <==> single.0 == Ok(DefaultStatus)) &&
      (single.0 == Ok(DefaultStatus) ==> last.1 == single.1)
  {
    RunAppend(step, fs, a, b);
    RunStatus(step, fs1, b);
    var last := Run(step, fs1, b);
    var results' := results + [last.0];
    assert forall j :: 0 <= j < |results| ==> results'[j] == results[j];
    assert results'[|results|] == last.0;
  }

  /**
   * The workers all succeed exactly when one pass over their chunks, in
   * order, succeeds, and they then leave the same file system.
   */
  lemma {:induction false} WorkersAgree(step: Step, fs: FileSystem, chunks: seq<seq<string>>, count: nat)
    requires count <= |chunks|
    ensures var results := Workers(step, fs, chunks, count).0;
      forall j :: 0 <= j < |results| ==> results[j].Ok? && results[j].value.result == Success ==> results[j] == Ok(DefaultStatus)
    ensures var results := Workers(step, fs, chunks, count).0;
      var single := Run(step, fs, FlattenKeys(chunks, count));
      (forall j :: 0 <= j < |results| ==> results[j] == Ok(DefaultStatus)) <==> single.0 == Ok(DefaultStatus)
    ensures var single := Run(step, fs, FlattenKeys(chunks, count));
      single.0 == Ok(DefaultStatus) ==> Workers(step, fs, chunks, count).1 == single.1
  {
    if count > 0 {
      WorkersAgree(step, fs, chunks, count - 1);
      var prev := Workers(step, fs, chunks, count - 1);
      var last := chunks[count - 1];
      AgreeStep(step, fs, FlattenKeys(chunks, count - 1), last, prev.0, prev.1);
      assert Workers(step, fs, chunks, count) == (prev.0 + [Run(step, prev.1, last).0], Run(step, prev.1, last).1);
    }
  }

  /**
   * The `numCores` threads together succeed exactly when a single pass over
   * the whole map in its iteration order succeeds, and they then leave the
   * file system that pass leaves.
   */
  lemma {:induction false} ThreadsAgreeWithOnePass(step: Step, fs: FileSystem, order: seq<string>, numCores: nat)
    requires numCores >= 1
    ensures var workers := Workers(step, fs, Chunks(order, numCores), numCores);
      var single := Run(step, fs, order);
      (Collect(workers.0) == Ok(DefaultStatus) <==> single.0 == Ok(DefaultStatus)) &&
      (Collect(workers.0) == Ok(DefaultStatus) ==> workers.1 == single.1)
  {
    var chunks := Chunks(order, numCores);
    WorkersAgree(step, fs, chunks, numCores);
    ChunksPartition(order, numCores);
    var results := Workers(step, fs, chunks, numCores).0;
    CollectStates(results);
    if forall j :: 0 <= j < |results| ==> results[j] == Ok(DefaultStatus) {
      assert forall j :: 0 <= j < |results| ==> results[j].Ok? && results[j].value.message.None?;
      assert Collect(results).Ok?;
    }
  }

  // ---- createReferenceDatabase ----

  /** The archive file as `createReferenceDatabase` finds it. */
  datatype ArchiveFile =
    | Unopenable           // the stream does not open
    | SizeUnknown          // `tellg()` reports -1
    | Present(bytes: seq<byte>)

  /** `templateBytes * 1.1`, truncated to an integer. */
  function RequiredSize(templateBytes: nat): nat
  {
    (11 * templateBytes) / 10
  }

  /** Archives smaller than this are written by one thread. */
  const MultithreadThreshold := 10000

  const NotEnoughSpaceTail := " is not enough storage space for the reference database. Estimated size required is 1.1x the size of templates."

  function NotEnoughSpace(templateBytes: nat, maxSize: uint64): string
  {
    "Given " + NatToString(templateBytes) + " bytes of templates, " + NatToString(maxSize) + NotEnoughSpaceTail
  }

  function Refused(message: string): Outcome<ReturnStatus>
  {
    Ok(ReturnStatus(Failure, Some(message)))
  }

  /** `order` lists the keys of `m` once each: how the `unordered_map` iterates. */
  predicate Enumerates(order: seq<string>, m: map<string, ManifestEntry>)
  {
    Keyed(order, m) &&
    (forall id :: id in m ==> id in order) &&
    (forall i, j :: 0 <= i < j < |order| ==> order[i] != order[j])
  }

  /**
   * `createReferenceDatabase`: refuses an archive it cannot open or size,
   * and one whose 1.1x exceeds `maxSize`, without touching the file system;
   * otherwise loads the manifest and writes the templates, with one worker
   * below 10000 bytes and `numCores` workers (`hardware_concurrency() - 1`)
   * from there on.
   */
  function CreateReferenceDatabaseSpec(fs: FileSystem, archivePath: string, archive: ArchiveFile, manifest: seq<ManifestEntry>,
                                       order: seq<string>, dbDir: Path, maxSize: uint64, numCores: nat)
    : (Outcome<ReturnStatus>, FileSystem)
    requires Enumerates(order, ManifestMap(manifest)) && numCores >= 1
    requires archive.Present? && RequiredSize(|archive.bytes|) <= maxSize ==> Loadable(archive.bytes, ManifestMap(manifest))
  {
    match archive
    case Unopenable => (Refused("Could not open TemplateArchive.archive: " + archivePath), fs)
    case SizeUnknown => (Refused("Size of " + archivePath + " could not be determined"), fs)
    case Present(bytes) =>
      var m := ManifestMap(manifest);
      if maxSize < RequiredSize(|bytes|) then (Refused(NotEnoughSpace(|bytes|, maxSize)), fs)
      else WriteArchiveSpec(fs, bytes, dbDir, m, order, numCores)
  }

  /**
   * Past the space check: one worker below 10000 bytes of archive, and
   * `numCores` workers, whose statuses are collected, from there on.
   */
  function WriteArchiveSpec(fs: FileSystem, bytes: seq<byte>, dbDir: Path, m: map<string, ManifestEntry>,
                            order: seq<string>, numCores: nat): (Outcome<ReturnStatus>, FileSystem)
    requires Loadable(bytes, m) && Keyed(order, m) && numCores >= 1
  {
    if |bytes| < MultithreadThreshold then ThreadWriteSpec(fs, bytes, dbDir, m, order)
    else
      var k := FirstOverflow(PerThread(|order|, numCores), numCores, 0);
      var (results, fs') := Launched(fs, bytes, dbDir, m, order, numCores, k);
      if k < numCores then (Refused("Iterator size too large for ptrdiff_t"), fs')
      else (Collect(results), fs')
  }

  method CreateReferenceDatabase(fs: FileSystem, archivePath: string, archive: ArchiveFile, manifest: seq<ManifestEntry>,
                                 order: seq<string>, dbDir: Path, maxSize: uint64, numCores: nat)
    returns (r: Outcome<ReturnStatus>, fs': FileSystem)
    requires Enumerates(order, ManifestMap(manifest)) && numCores >= 1
    requires archive.Present? && RequiredSize(|archive.bytes|) <= maxSize ==> Loadable(archive.bytes, ManifestMap(manifest))
    ensures (r, fs') == CreateReferenceDatabaseSpec(fs, archivePath, archive, manifest, order, dbDir, maxSize, numCores)
  {
    if archive.Unopenable? {
      return Refused("Could not open TemplateArchive.archive: " + archivePath), fs;
    }
    if archive.SizeUnknown? {
      return Refused("Size of " + archivePath + " could not be determined"), fs;
    }
    var templateBytes := |archive.bytes|;
    if maxSize < RequiredSize(templateBytes) {
      return Refused(NotEnoughSpace(templateBytes, maxSize)), fs;
    }
    var templates := LoadManifest(manifest);
    if templateBytes < MultithreadThreshold {
      r, fs' := ThreadWrite(fs, archive.bytes, dbDir, templates, order);
      return;
    }
    var results, tooLarge;
    results, fs', tooLarge := LaunchWorkers(fs, archive.bytes, dbDir, templates, order, numCores);
    if tooLarge {
      return Refused("Iterator size too large for ptrdiff_t"), fs';
    }
    r := CollectStatuses(results);
  }

  /**
   * The refusals: an archive that cannot be opened or sized, or too little
   * space for it (see `SpaceCheck`), gives Failure and changes nothing.
   */
  lemma {:induction false} CreateReferenceDatabaseRefuses(fs: FileSystem, archivePath: string, archive: ArchiveFile, manifest: seq<ManifestEntry>,
                                       order: seq<string>, dbDir: Path, maxSize: uint64, numCores: nat)
    requires Enumerates(order, ManifestMap(manifest)) && numCores >= 1
    requires archive.Present? && RequiredSize(|archive.bytes|) <= maxSize ==> Loadable(archive.bytes, ManifestMap(manifest))
    requires !archive.Present? || maxSize < RequiredSize(|archive.bytes|)
    ensures var out := CreateReferenceDatabaseSpec(fs, archivePath, archive, manifest, order, dbDir, maxSize, numCores);
      out.1 == fs && out.0.Ok? && out.0.value.result == Failure
    ensures archive.Present? ==>
      CreateReferenceDatabaseSpec(fs, archivePath, archive, manifest, order, dbDir, maxSize, numCores).0 ==
        Refused(NotEnoughSpace(|archive.bytes|, maxSize))
  {
    if archive.Present? {
      RefusesTooLarge(fs, archivePath, archive, manifest, order, dbDir, maxSize, numCores);
    } else {
      RefusesUnread(fs, archivePath, archive, manifest, order, dbDir, maxSize, numCores);
    }
  }

  lemma {:induction false} RefusesTooLarge(fs: FileSystem, archivePath: string, archive: ArchiveFile, manifest: seq<ManifestEntry>,
                        order: seq<string>, dbDir: Path, maxSize: uint64, numCores: nat)
    requires Enumerates(order, ManifestMap(manifest)) && numCores >= 1
    requires archive.Present? && maxSize < RequiredSize(|archive.bytes|)
    ensures CreateReferenceDatabaseSpec(fs, archivePath, archive, manifest, order, dbDir, maxSize, numCores) ==
      (Refused(NotEnoughSpace(|archive.bytes|, maxSize)), fs)
  {
  }

  lemma {:induction false} RefusesUnread(fs: FileSystem, archivePath: string, archive: ArchiveFile, manifest: seq<ManifestEntry>,
                      order: seq<string>, dbDir: Path, maxSize: uint64, numCores: nat)
    requires Enumerates(order, ManifestMap(manifest)) && numCores >= 1 && !archive.Present?
    ensures var out := CreateReferenceDatabaseSpec(fs, archivePath, archive, manifest, order, dbDir, maxSize, numCores);
      out.1 == fs && out.0.Ok? && out.0.value.result == Failure
  {
  }

  /**
   * The two ways of writing: past the space check, a small archive is one pass over
   * the map and a large one is `numCores` workers whose statuses are
   * collected, since a real map never trips the iterator-size check.
   */
  lemma {:induction false} CreateReferenceDatabaseCases(fs: FileSystem, archivePath: string, archive: ArchiveFile, manifest: seq<ManifestEntry>,
                                     order: seq<string>, dbDir: Path, maxSize: uint64, numCores: nat)
    requires Enumerates(order, ManifestMap(manifest)) && numCores >= 1
    requires archive.Present? && RequiredSize(|archive.bytes|) <= maxSize ==> Loadable(archive.bytes, ManifestMap(manifest))
    requires |order| <= PtrdiffMax
    ensures var out := CreateReferenceDatabaseSpec(fs, archivePath, archive, manifest, order, dbDir, maxSize, numCores);
      archive.Present? && maxSize >= RequiredSize(|archive.bytes|) && |archive.bytes| < MultithreadThreshold ==>
        out == ThreadWriteSpec(fs, archive.bytes, dbDir, ManifestMap(manifest), order)
    ensures var out := CreateReferenceDatabaseSpec(fs, archivePath, archive, manifest, order, dbDir, maxSize, numCores);
      archive.Present? && maxSize >= RequiredSize(|archive.bytes|) && |archive.bytes| >= MultithreadThreshold ==>
        var launched := Launched(fs, archive.bytes, dbDir, ManifestMap(manifest), order, numCores, numCores);
        out == (Collect(launched.0), launched.1)
  {
    if archive.Present? && maxSize >= RequiredSize(|archive.bytes|) && |archive.bytes| >= MultithreadThreshold {
      NoOverflowForRealMaps(order, numCores);
    }
  }

  /** The truncated product is below `maxSize + 1` exactly when `11 * n < 10 * (maxSize + 1)`. */
  lemma {:induction false} SpaceCheck(n: nat, maxSize: nat)
    ensures 10 * RequiredSize(n) <= 11 * n < 10 * (RequiredSize(n) + 1)
    ensures maxSize < RequiredSize(n) <==> 10 * (maxSize + 1) <= 11 * n
  {
  }

  /**
   * `createReferenceDatabase` succeeds only with an archive in hand, and
   * then exactly as one pass of `threadWrite` over the whole map would:
   * same status, same file system.
   */
  lemma {:induction false} SucceedsAsOnePass(fs: FileSystem, archivePath: string, archive: ArchiveFile, manifest: seq<ManifestEntry>,
                          order: seq<string>, dbDir: Path, maxSize: uint64, numCores: nat)
    requires Enumerates(order, ManifestMap(manifest)) && numCores >= 1
    requires archive.Present? && RequiredSize(|archive.bytes|) <= maxSize ==> Loadable(archive.bytes, ManifestMap(manifest))
    requires CreateReferenceDatabaseSpec(fs, archivePath, archive, manifest, order, dbDir, maxSize, numCores).0 == Ok(DefaultStatus)
    ensures archive.Present? && RequiredSize(|archive.bytes|) <= maxSize
    ensures var single := ThreadWriteSpec(fs, archive.bytes, dbDir, ManifestMap(manifest), order);
      single.0 == Ok(DefaultStatus) &&
      CreateReferenceDatabaseSpec(fs, archivePath, archive, manifest, order, dbDir, maxSize, numCores).1 == single.1
  {
    var out := CreateReferenceDatabaseSpec(fs, archivePath, archive, manifest, order, dbDir, maxSize, numCores);
    var bytes := archive.bytes;
    var m := ManifestMap(manifest);
    if |bytes| >= MultithreadThreshold {
      var k := FirstOverflow(PerThread(|order|, numCores), numCores, 0);
      assert k < numCores ==> out.0 == Refused("Iterator size too large for ptrdiff_t");
      var launched := Launched(fs, bytes, dbDir, m, order, numCores, numCores);
      assert out == (Collect(launched.0), launched.1);
      ThreadsAgreeWithOnePass(Writer(bytes, dbDir, m), fs, order, numCores);
    } else {
      assert out == ThreadWriteSpec(fs, bytes, dbDir, m, order);
    }
  }

  /**
   * A successful pass over an enumeration of the map writes every template
   * at its path and changes nothing else.
   */
  lemma {:induction false} OnePassBuilds(fs: FileSystem, archive: seq<byte>, dbDir: Path, m: map<string, ManifestEntry>, order: seq<string>)
    requires Enumerates(order, m) && Loadable(archive, m) && Valid(fs)
    requires DistinctTargets(archive, m, dbDir, order)
    requires ThreadWriteSpec(fs, archive, dbDir, m, order).0 == Ok(DefaultStatus)
    ensures var fs' := ThreadWriteSpec(fs, archive, dbDir, m, order).1;
      Valid(fs') &&
      (forall id :: id in m ==>
        TargetOf(archive, m, dbDir, id) in fs' && fs'[TargetOf(archive, m, dbDir, id)] == File(TemplateAt(archive, m[id]))) &&
      (forall p :: p in fs && (forall id :: id in m ==> p != TargetOf(archive, m, dbDir, id)) ==> p in fs' && fs'[p] == fs[p])
  {
    var fs' := ThreadWriteSpec(fs, archive, dbDir, m, order).1;
    ThreadWriteWritesAll(fs, archive, dbDir, m, order);
    forall id | id in m
      ensures TargetOf(archive, m, dbDir, id) in fs' && fs'[TargetOf(archive, m, dbDir, id)] == File(TemplateAt(archive, m[id]))
    {
      var i :| 0 <= i < |order| && order[i] == id;
    }
    forall p | p in fs && (forall id :: id in m ==> p != TargetOf(archive, m, dbDir, id))
      ensures p in fs' && fs'[p] == fs[p]
    {
      assert forall i :: 0 <= i < |order| ==> p != TargetOf(archive, m, dbDir, order[i]);
    }
  }

  /**
   * When `createReferenceDatabase` succeeds, every template of the manifest
   * has been written, byte for byte, at the path the search reads it from,
   * and nothing that was there before has changed except at those paths;
   * one worker or many makes no difference.
   */
  lemma {:induction false} DatabaseBuilt(fs: FileSystem, archivePath: string, archive: ArchiveFile, manifest: seq<ManifestEntry>,
                      order: seq<string>, dbDir: Path, maxSize: uint64, numCores: nat)
    requires Enumerates(order, ManifestMap(manifest)) && numCores >= 1
    requires archive.Present? && RequiredSize(|archive.bytes|) <= maxSize ==> Loadable(archive.bytes, ManifestMap(manifest))
    requires Valid(fs)
    requires archive.Present? && RequiredSize(|archive.bytes|) <= maxSize ==> DistinctTargets(archive.bytes, ManifestMap(manifest), dbDir, order)
    requires CreateReferenceDatabaseSpec(fs, archivePath, archive, manifest, order, dbDir, maxSize, numCores).0 == Ok(DefaultStatus)
    ensures archive.Present? && RequiredSize(|archive.bytes|) <= maxSize
    ensures var m := ManifestMap(manifest);
      var fs' := CreateReferenceDatabaseSpec(fs, archivePath, archive, manifest, order, dbDir, maxSize, numCores).1;
      Valid(fs') &&
      (forall id :: id in m ==>
        TargetOf(archive.bytes, m, dbDir, id) in fs' && fs'[TargetOf(archive.bytes, m, dbDir, id)] == File(TemplateAt(archive.bytes, m[id]))) &&
      (forall p :: p in fs && (forall id :: id in m ==> p != TargetOf(archive.bytes, m, dbDir, id)) ==> p in fs' && fs'[p] == fs[p])
  {
    SucceedsAsOnePass(fs, archivePath, archive, manifest, order, dbDir, maxSize, numCores);
    OnePassBuilds(fs, archive.bytes, dbDir, ManifestMap(manifest), order);
  }
}
