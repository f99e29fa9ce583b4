/**
 * `makeReferenceTemplateArchive`: the validation driver concatenates the reference
 * template files of its output directory into one archive and records,
 * for each, a manifest line `name length offset`.
 *
 * The directory listing is an input (its order is whatever the directory
 * iterator yields); the archive and the manifest are returned as values.
 */
module TemplateArchive {
  import opened Wrappers
  import opened Text
  import opened Elft

  /** One entry the recursive directory iterator yields. */
  datatype DirEntry = DirEntry(filename: string, regular: bool, bytes: seq<byte>)

  /** The last index of `.` at position 1 or later, if any. */
  function LastDot(name: string): (r: Option<nat>)
    ensures r.Some? ==> (1 <= r.value < |name| && name[r.value] == '.' &&
      forall i :: r.value < i < |name| ==> name[i] != '.')
    ensures r.None? ==> forall i :: 1 <= i < |name| ==> name[i] != '.'
  {
    if |name| <= 1 then None
    else if name[|name| - 1] == '.' then Some(|name| - 1)
    else LastDot(name[..|name| - 1])
  }

  /**
   * `path::extension` of a file name: from its rightmost period on; empty
   * for `.`, `..` and names whose only period is the leading one.
   */
  function Extension(name: string): (e: string)
    ensures e == [] || (e[0] == '.' && forall i :: 1 <= i < |e| ==> e[i] != '.')
    ensures e != [] ==> |e| < |name| && name[|name| - |e|..] == e
  {
    if name == ".." then ""
    else match LastDot(name)
      case None => ""
      case Some(i) => name[i..]
  }

  /** The entries the loop copies: regular files whose extension is the template suffix. */
  predicate Selected(e: DirEntry, suffix: string)
  {
    Extension(e.filename) == suffix && e.regular
  }

  /** The archive and the manifest after copying `entries` in order. */
  function Archive(entries: seq<DirEntry>, suffix: string): (r: (seq<byte>, seq<ManifestEntry>))
  {
    if entries == [] then ([], [])
    else
      var (archive, manifest) := Archive(entries[..|entries| - 1], suffix);
      var e := entries[|entries| - 1];
      if Selected(e, suffix) then
        (archive + e.bytes, manifest + [ManifestEntry(e.filename, |e.bytes|, |archive|)])
      else (archive, manifest)
  }

  /** The manifest line the validation driver writes for an entry. */
  function ManifestLine(m: ManifestEntry): string
  {
    m.identifier + " " + NatToString(m.length) + " " + NatToString(m.offset) + "\n"
  }

  function ManifestText(manifest: seq<ManifestEntry>): string
  {
    if manifest == [] then "" else ManifestText(manifest[..|manifest| - 1]) + ManifestLine(manifest[|manifest| - 1])
  }

  /**
   * `makeReferenceTemplateArchive`: refuses to run when the archive, then
   * the manifest, already exists; otherwise appends each selected file to
   * the archive, at the archive's current length, and writes its line.
   * Failures to open, read or write files are not modelled.
   */
  method MakeReferenceTemplateArchive(archivePath: string, archiveExists: bool, manifestPath: string, manifestExists: bool,
                                      entries: seq<DirEntry>, suffix: string)
    returns (r: Outcome<(seq<byte>, string)>)
    ensures archiveExists ==> r == Raised(archivePath + " already exists")
    ensures !archiveExists && manifestExists ==> r == Raised(manifestPath + " already exists")
    ensures !archiveExists && !manifestExists ==>
      r == Ok((Archive(entries, suffix).0, ManifestText(Archive(entries, suffix).1)))
  {
    if archiveExists {
      return Raised(archivePath + " already exists");
    }
    if manifestExists {
      return Raised(manifestPath + " already exists");
    }
    var archive: seq<byte> := [];
    var manifest: string := "";
    ghost var entriesWritten: seq<ManifestEntry> := [];
    var k := 0;
    while k < |entries|
      invariant 0 <= k <= |entries|
      invariant (archive, entriesWritten) == Archive(entries[..k], suffix)
      invariant manifest == ManifestText(entriesWritten)
    {
      var entry := entries[k];
      ArchiveStep(entries, k, suffix);
      if Extension(entry.filename) == suffix && entry.regular {
        var currentOffset := |archive|;
        archive := archive + entry.bytes;
        var line := ManifestEntry(entry.filename, |entry.bytes|, currentOffset);
        manifest := manifest + ManifestLine(line);
        ManifestTextSnoc(entriesWritten, line);
        entriesWritten := entriesWritten + [line];
      }
      k := k + 1;
    }
    assert entries[..k] == entries;
    return Ok((archive, manifest));
  }

  /** One more entry: copied at the archive's current length when selected, skipped otherwise. */
  lemma {:induction false} ArchiveStep(entries: seq<DirEntry>, k: nat, suffix: string)
    requires k < |entries|
    ensures var before := Archive(entries[..k], suffix);
      var e := entries[k];
      Archive(entries[..k + 1], suffix) ==
        if Selected(e, suffix) then (before.0 + e.bytes, before.1 + [ManifestEntry(e.filename, |e.bytes|, |before.0|)])
        else before
  {
    assert entries[..k + 1][..k] == entries[..k];
  }

  lemma {:induction false} ManifestTextSnoc(manifest: seq<ManifestEntry>, m: ManifestEntry)
    ensures ManifestText(manifest + [m]) == ManifestText(manifest) + ManifestLine(m)
  {
    assert (manifest + [m])[..|manifest|] == manifest;
  }

  /** The selected entries, in order. */
  function SelectedEntries(entries: seq<DirEntry>, suffix: string): seq<DirEntry>
  {
    if entries == [] then []
    else
      var rest := SelectedEntries(entries[..|entries| - 1], suffix);
      if Selected(entries[|entries| - 1], suffix) then rest + [entries[|entries| - 1]] else rest
  }

  /** The selected files' bytes, one after the other. */
  function Concatenation(files: seq<DirEntry>): (r: seq<byte>)
  {
    if files == [] then [] else Concatenation(files[..|files| - 1]) + files[|files| - 1].bytes
  }

  /** What the manifest says about `files`: names, sizes and running offsets. */
  function Described(files: seq<DirEntry>): (r: seq<ManifestEntry>)
    ensures |r| == |files|
  {
    if files == [] then []
    else
      var init := files[..|files| - 1];
      Described(init) + [ManifestEntry(files[|files| - 1].filename, |files[|files| - 1].bytes|, |Concatenation(init)|)]
  }

  /** The archive is the selected files' bytes and the manifest describes those files. */
  lemma {:induction false} ArchiveIsConcatenation(entries: seq<DirEntry>, suffix: string)
    ensures Archive(entries, suffix) ==
      (Concatenation(SelectedEntries(entries, suffix)), Described(SelectedEntries(entries, suffix)))
    ensures forall k :: 0 <= k < |SelectedEntries(entries, suffix)| ==> Selected(SelectedEntries(entries, suffix)[k], suffix)
  {
    if entries != [] {
      var init := entries[..|entries| - 1];
      ArchiveIsConcatenation(init, suffix);
      var files := SelectedEntries(entries, suffix);
      var files0 := SelectedEntries(init, suffix);
      if Selected(entries[|entries| - 1], suffix) {
        assert files[..|files| - 1] == files0;
      }
    }
  }

  /** Each entry of `Described(files)`, stated directly. */
  lemma {:induction false} DescribedEntry(files: seq<DirEntry>, k: nat)
    requires k < |files|
    ensures Described(files)[k] == ManifestEntry(files[k].filename, |files[k].bytes|, |Concatenation(files[..k])|)
  {
    var init := files[..|files| - 1];
    if k < |files| - 1 {
      DescribedEntry(init, k);
      assert init[..k] == files[..k];
    } else {
      assert init == files[..k];
    }
  }

  /** The bytes of file `k` sit at offset `|Concatenation(files[..k])|`. */
  lemma {:induction false} ConcatenationSlice(files: seq<DirEntry>, k: nat)
    requires k < |files|
    ensures var off := |Concatenation(files[..k])|;
      off + |files[k].bytes| <= |Concatenation(files)| &&
      Concatenation(files)[off..off + |files[k].bytes|] == files[k].bytes
  {
    var init := files[..|files| - 1];
    var all := Concatenation(files);
    if k < |files| - 1 {
      ConcatenationSlice(init, k);
      assert init[..k] == files[..k];
      assert all[..|Concatenation(init)|] == Concatenation(init);
    } else {
      assert init == files[..k];
    }
  }

  /**
   * The manifest describes the archive: one entry per file, in order, named
   * by its file name (so with the template suffix), whose length is the
   * file's size; slicing the archive at each entry gives back exactly that
   * file's bytes.
   */
  predicate Describes(archive: seq<byte>, manifest: seq<ManifestEntry>, files: seq<DirEntry>, suffix: string)
  {
    |manifest| == |files| &&
    forall k :: 0 <= k < |manifest| ==> DescribesEntry(archive, manifest[k], files[k], suffix)
  }

  predicate DescribesEntry(archive: seq<byte>, m: ManifestEntry, file: DirEntry, suffix: string)
  {
    m.identifier == file.filename &&
    Extension(m.identifier) == suffix &&
    m.length == |file.bytes| &&
    m.offset + m.length <= |archive| &&
    archive[m.offset..m.offset + m.length] == file.bytes
  }

  lemma {:induction false} DescribedDescribes(files: seq<DirEntry>, suffix: string)
    requires forall k :: 0 <= k < |files| ==> Selected(files[k], suffix)
    ensures Describes(Concatenation(files), Described(files), files, suffix)
  {
    forall k | 0 <= k < |files|
      ensures DescribesEntry(Concatenation(files), Described(files)[k], files[k], suffix)
    {
      DescribesFile(files, suffix, k);
    }
  }

  /** The manifest entry of one selected file describes it. */
  lemma {:induction false} DescribesFile(files: seq<DirEntry>, suffix: string, k: nat)
    requires k < |files| && Selected(files[k], suffix)
    ensures DescribesEntry(Concatenation(files), Described(files)[k], files[k], suffix)
  {
    DescribedEntry(files, k);
    ConcatenationSlice(files, k);
  }

  /**
   * Slicing the archive at each manifest entry gives back the file it names:
   * the archive and manifest the validation driver writes describe each other.
   */
  lemma {:induction false} ArchiveRoundTrip(entries: seq<DirEntry>, suffix: string)
    ensures Describes(Archive(entries, suffix).0, Archive(entries, suffix).1, SelectedEntries(entries, suffix), suffix)
  {
    ArchiveIsConcatenation(entries, suffix);
    DescribedDescribes(SelectedEntries(entries, suffix), suffix);
  }
}
