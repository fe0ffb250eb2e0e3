/** The pure parts of the release tool: the relative-path normalisation
    of manifest entries and the filter that decides which files a delta
    patch carries. */
module BuildManifest {
  import opened Base
  import opened Text

  /** One bundled file: its path relative to the bundle root, the hex
      digest of its contents, and its size in bytes. */
  datatype FileEntry = FileEntry(rel: string, sha256: string, size: nat)

  datatype Manifest = Manifest(name: string, version: string, createdAt: string, files: seq<FileEntry>)

  /** The relative path as a manifest or a zip archive records it: every
      backslash turned into a forward slash. */
  function NormalizeRel(path: string): string {
    ReplaceChar(path, '\\', '/')
  }

  /** A normalised path has no backslash, keeps every other character in
      place, and normalising it again changes nothing. */
  lemma NormalizeRelLaws(path: string)
    ensures |NormalizeRel(path)| == |path|
    ensures forall i :: 0 <= i < |path| ==> NormalizeRel(path)[i] != '\\'
    ensures forall i :: 0 <= i < |path| && path[i] != '\\' ==> NormalizeRel(path)[i] == path[i]
    ensures NormalizeRel(NormalizeRel(path)) == NormalizeRel(path)
  {
  }

  /** Whether the old manifest lists a file at the same path with the
      same digest. */
  predicate Unchanged(oldFiles: seq<FileEntry>, f: FileEntry) {
    exists o :: o in oldFiles && o.rel == f.rel && o.sha256 == f.sha256
  }

  /** The entries of the new manifest for which the old manifest has no
      entry with the same path and digest, in the new manifest's order. */
  function Changed(newFiles: seq<FileEntry>, oldFiles: seq<FileEntry>): (r: seq<FileEntry>)
    ensures |r| <= |newFiles|
    ensures forall f :: f in r <==> f in newFiles && !Unchanged(oldFiles, f)
    decreases |newFiles|
  {
    if newFiles == [] then []
    else
      var last := newFiles[|newFiles| - 1];
      var init := Changed(newFiles[..|newFiles| - 1], oldFiles);
      assert newFiles == newFiles[..|newFiles| - 1] + [last];
      if Unchanged(oldFiles, last) then init else init + [last]
  }

  /** The filter keeps order: the changes of a concatenation are the
      changes of its parts, one after the other. */
  lemma {:induction false} ChangedConcat(a: seq<FileEntry>, b: seq<FileEntry>, oldFiles: seq<FileEntry>)
    ensures Changed(a + b, oldFiles) == Changed(a, oldFiles) + Changed(b, oldFiles)
    decreases |b|
  {
    if b == [] {
      assert a + b == a;
    } else {
      assert (a + b)[..|a + b| - 1] == a + b[..|b| - 1];
      ChangedConcat(a, b[..|b| - 1], oldFiles);
    }
  }

  /** What `patch` does with two manifests: `None` is the early "no
      changes" return, otherwise the entries to copy into the patch. */
  function PatchFiles(oldM: Manifest, newM: Manifest): (r: Option<seq<FileEntry>>)
    ensures r.None? <==> forall f :: f in newM.files ==> Unchanged(oldM.files, f)
    ensures r.Some? ==> r.value != [] && r.value == Changed(newM.files, oldM.files)
  {
    var changed := Changed(newM.files, oldM.files);
    if changed == [] then None
    else
      assert changed[0] in changed;
      Some(changed)
  }

  /** Comparing a manifest with one that lists the same files finds no
      change, whatever the names, versions and times. */
  lemma IdenticalFilesNoPatch(oldM: Manifest, newM: Manifest)
    requires oldM.files == newM.files
    ensures PatchFiles(oldM, newM).None?
  {
    forall f | f in newM.files
      ensures Unchanged(oldM.files, f)
    {
      assert f in oldM.files;
    }
  }

  /** A file that only the old manifest lists is never part of a patch,
      and a file whose contents moved to a new path is. */
  lemma DeletionsAndMoves(oldM: Manifest, newM: Manifest, moved: FileEntry)
    requires moved in newM.files
    requires forall o :: o in oldM.files ==> o.rel != moved.rel
    ensures forall f :: f in Changed(newM.files, oldM.files) ==> f in newM.files
    ensures moved in Changed(newM.files, oldM.files)
  {
  }

  /** Two files "a.txt" and "b.txt", of which only "b.txt" gets new
      contents: exactly "b.txt" is reported. */
  lemma OneModifiedFile()
    ensures var m1 := [FileEntry("a.txt", "h-hello", 5), FileEntry("b.txt", "h-world", 5)];
      var m2 := [FileEntry("a.txt", "h-hello", 5), FileEntry("b.txt", "h-world!", 6)];
      var changed := Changed(m2, m1);
      |changed| == 1 && changed[0].rel == "b.txt"
  {
    var m1 := [FileEntry("a.txt", "h-hello", 5), FileEntry("b.txt", "h-world", 5)];
    var m2 := [FileEntry("a.txt", "h-hello", 5), FileEntry("b.txt", "h-world!", 6)];
    assert Unchanged(m1, m2[0]) by {
      assert m1[0] in m1;
    }
    assert m2[..1] == [m2[0]] && m2[..1][..0] == [];
  }
}
