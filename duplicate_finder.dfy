/**
 * The duplicate finder: grouping the library by content digest or by a key
 * built from a few metadata fields, and suggesting which copies to delete.
 * The content digest (`hash_file`, SHA-256 over the file's bytes) is an
 * input: a function from a path to its hex digest.
 */
module Duplicates {
  import opened Optional
  import opened Paths
  import opened MediaFiles
  import opened Grouping
  import opened Library

  /** `metadata.get(field, None)`. */
  function Get(metadata: Metadata, field: string): Option<MetaValue>
  {
    if field in metadata then Some(metadata[field]) else None
  }

  /**
   * The tuple `generate_metadata_key` returns: date taken, file size, width
   * and height as stored (or `None`), and the extension exactly as `splitext`
   * gives it, without lower-casing.
   */
  datatype MetadataKey = MetadataKey(
    dateTaken: Option<MetaValue>,
    fileSize: Option<MetaValue>,
    width: Option<MetaValue>,
    height: Option<MetaValue>,
    extension: string)

  /** The metadata fields the key is made of, in tuple order. */
  const KeyFields: seq<string> := ["DateTimeOriginal", "FileSize", "ImageWidth", "ImageHeight"]

  /** `generate_metadata_key` on a file with this path and metadata. */
  function MetadataKeyOf(path: string, metadata: Metadata): MetadataKey
  {
    MetadataKey(Get(metadata, KeyFields[0]), Get(metadata, KeyFields[1]),
                Get(metadata, KeyFields[2]), Get(metadata, KeyFields[3]), Extension(path))
  }

  /** `generate_metadata_key(media_file)`. */
  function GenerateMetadataKey(f: MediaFile): MetadataKey
    reads f
  {
    MetadataKeyOf(f.filePath, f.metadata)
  }

  /**
   * Two files get the same key exactly when they agree on each of the four
   * fields (both lacking it counts as agreeing) and on the raw extension.
   */
  lemma SameKeyIff(p1: string, m1: Metadata, p2: string, m2: Metadata)
    ensures MetadataKeyOf(p1, m1) == MetadataKeyOf(p2, m2) <==>
            (forall i :: 0 <= i < |KeyFields| ==> Get(m1, KeyFields[i]) == Get(m2, KeyFields[i]))
            && Extension(p1) == Extension(p2)
  {
    if MetadataKeyOf(p1, m1) == MetadataKeyOf(p2, m2) {
      forall i | 0 <= i < |KeyFields|
        ensures Get(m1, KeyFields[i]) == Get(m2, KeyFields[i])
      {
        assert i == 0 || i == 1 || i == 2 || i == 3;
      }
    }
  }

  /** A field missing from both files gives both keys `None` in that place. */
  lemma MissingFieldsAgree(p1: string, m1: Metadata, p2: string, m2: Metadata)
    requires forall i :: 0 <= i < |KeyFields| ==> KeyFields[i] !in m1 && KeyFields[i] !in m2
    requires Extension(p1) == Extension(p2)
    ensures MetadataKeyOf(p1, m1) == MetadataKeyOf(p2, m2)
    ensures MetadataKeyOf(p1, m1) == MetadataKey(None, None, None, None, Extension(p1))
  {
    assert KeyFields[0] !in m1 && KeyFields[1] !in m1 && KeyFields[2] !in m1 && KeyFields[3] !in m1;
    assert KeyFields[0] !in m2 && KeyFields[1] !in m2 && KeyFields[2] !in m2 && KeyFields[3] !in m2;
  }

  /** The extension keeps its case: `a.JPG` and `b.jpg` never share a key. */
  lemma ExtensionCaseKept(m1: Metadata, m2: Metadata)
    ensures MetadataKeyOf("a.JPG", m1) != MetadataKeyOf("b.jpg", m2)
  {
    LastIndexIs("a.JPG", '/', -1);
    LastIndexIs("a.JPG", '.', 1);
    assert "a.JPG"[0] != '.';
    LastIndexIs("b.jpg", '/', -1);
    LastIndexIs("b.jpg", '.', 1);
    assert "b.jpg"[0] != '.';
    assert Extension("a.JPG") == ".JPG";
    assert Extension("b.jpg") == ".jpg";
  }

  /** Tagging a file does not change its key. */
  lemma TaggingKeepsKey(path: string, metadata: Metadata, tags: seq<string>)
    ensures MetadataKeyOf(path, metadata["tags" := TagList(tags)]) == MetadataKeyOf(path, metadata)
  {
  }

  /**
   * A key of the dictionary `self.duplicates`: a hex digest after a hash
   * pass, a metadata tuple after a metadata pass.
   */
  datatype DupKey = Digest(hex: string) | Meta(key: MetadataKey)

  type Groups = map<DupKey, seq<MediaFile>>

  /** The digest of each library entry, in library order. */
  function Digests(lib: seq<MediaFile>, digest: string -> string): (ds: seq<string>)
    ensures |ds| == |lib|
    ensures forall i :: 0 <= i < |lib| ==> ds[i] == digest(lib[i].filePath)
  {
    seq(|lib|, i requires 0 <= i < |lib| => digest(lib[i].filePath))
  }

  /** The metadata key of each library entry, in library order. */
  function MetadataKeys(lib: seq<MediaFile>): (ks: seq<MetadataKey>)
    reads lib
    ensures |ks| == |lib|
    ensures forall i :: 0 <= i < |lib| ==> ks[i] == GenerateMetadataKey(lib[i])
  {
    if lib == [] then []
    else MetadataKeys(lib[..|lib| - 1]) + [GenerateMetadataKey(lib[|lib| - 1])]
  }

  /** The groups of a metadata pass, under their keys in `self.duplicates`. */
  function LiftMeta(m: map<MetadataKey, seq<MediaFile>>): (g: Groups)
    ensures forall k :: Meta(k) in g <==> k in m
    ensures forall k :: k in m ==> g[Meta(k)] == m[k]
    ensures forall k :: k in g ==> k.Meta?
  {
    map k | k in m :: Meta(k) := m[k]
  }

  /** Groups by digest, under their keys in `self.duplicates`. */
  function LiftDigest(m: map<string, seq<MediaFile>>): (g: Groups)
    ensures forall d :: Digest(d) in g <==> d in m
    ensures forall d :: d in m ==> g[Digest(d)] == m[d]
    ensures forall k :: k in g ==> k.Digest?
  {
    map d | d in m :: Digest(d) := m[d]
  }

  /** What the hash loop leaves: `file_hashes`, `self.duplicates`, and whether it raised `KeyError`. */
  datatype HashOutcome = HashOutcome(fileHashes: map<string, MediaFile>, dups: Groups, raised: bool)

  /**
   * The loop of `find_duplicates_by_hash` from a given state, one file at a
   * time: the first file with a digest is remembered in `file_hashes`; each
   * later one is appended to `self.duplicates[digest]`. While that is still
   * the constructor's `defaultdict` (`defaulting`), a missing key starts an
   * empty list; once a pass has replaced it by a plain dictionary, a missing
   * key raises `KeyError` and the loop stops where it is.
   */
  function HashPass(files: seq<MediaFile>, digests: seq<string>, fileHashes: map<string, MediaFile>,
                    dups: Groups, defaulting: bool): HashOutcome
    requires |files| == |digests|
    decreases |files|
  {
    if files == [] then HashOutcome(fileHashes, dups, false)
    else if digests[0] in fileHashes then
      if defaulting || Digest(digests[0]) in dups then
        HashPass(files[1..], digests[1..], fileHashes, Append(dups, Digest(digests[0]), files[0]), defaulting)
      else
        HashOutcome(fileHashes, dups, true)
    else
      HashPass(files[1..], digests[1..], fileHashes[digests[0] := files[0]], dups, defaulting)
  }

  /** `file_hashes` after visiting `files`: each digest seen, with the first file that has it. */
  function Firsts(files: seq<MediaFile>, digests: seq<string>): (m: map<string, MediaFile>)
    requires |files| == |digests|
    ensures forall d :: d in m <==> d in digests
    decreases |files|
  {
    if files == [] then map[]
    else
      var n := |files| - 1;
      var prev := Firsts(files[..n], digests[..n]);
      if digests[n] in digests[..n] then prev else prev[digests[n] := files[n]]
  }

  /**
   * `self.duplicates` after visiting `files` from the constructor's empty
   * `defaultdict`: a file whose digest was seen before is appended to that
   * digest's list.
   */
  function Later(files: seq<MediaFile>, digests: seq<string>): (g: Groups)
    requires |files| == |digests|
    ensures forall k :: k in g ==> k.Digest?
    decreases |files|
  {
    if files == [] then map[]
    else
      var n := |files| - 1;
      var prev := Later(files[..n], digests[..n]);
      if digests[n] in digests[..n] then Append(prev, Digest(digests[n]), files[n]) else prev
  }

  /**
   * From the state after the first `i` files, the rest of the loop ends in
   * the state after all of them: the one-file-at-a-time loop computes
   * `Firsts` and `Later`, and never raises while the dictionary defaults.
   */
  lemma {:induction false} HashPassResumes(files: seq<MediaFile>, digests: seq<string>, i: nat)
    requires |files| == |digests| && i <= |files|
    ensures HashPass(files[i..], digests[i..], Firsts(files[..i], digests[..i]), Later(files[..i], digests[..i]), true)
         == HashOutcome(Firsts(files, digests), Later(files, digests), false)
    decreases |files| - i
  {
    if i == |files| {
      assert files[..i] == files && digests[..i] == digests;
    } else {
      HashPassResumes(files, digests, i + 1);
      assert files[..i + 1][..i] == files[..i];
      assert digests[..i + 1][..i] == digests[..i];
      assert files[i..][1..] == files[i + 1..];
      assert digests[i..][1..] == digests[i + 1..];
    }
  }

  /** The whole hash loop from the constructor's state. */
  lemma HashPassFromFresh(files: seq<MediaFile>, digests: seq<string>)
    requires |files| == |digests|
    ensures HashPass(files, digests, map[], map[], true) == HashOutcome(Firsts(files, digests), Later(files, digests), false)
  {
    HashPassResumes(files, digests, 0);
    assert files[0..] == files && digests[0..] == digests;
  }

  /** `file_hashes` keeps the first file carrying each digest. */
  lemma {:induction false} FirstsAreFirst(files: seq<MediaFile>, digests: seq<string>, x: string)
    requires |files| == |digests|
    requires x in digests
    ensures |Positions(digests, x)| > 0
    ensures Firsts(files, digests)[x] == files[Positions(digests, x)[0]]
    decreases |files|
  {
    var n := |files| - 1;
    assert digests == digests[..n] + [digests[n]];
    PositionsSnoc(digests[..n], digests[n], x);
    if x in digests[..n] {
      FirstsAreFirst(files[..n], digests[..n], x);
    } else {
      PositionsAreIndices(digests[..n], x);
      assert multiset(digests[..n])[x] == 0;
    }
  }

  /**
   * The list of a digest after the loop: present exactly when the digest
   * occurs at least twice, and then it holds every occurrence but the first,
   * in library order.
   */
  lemma {:induction false} LaterCopies(files: seq<MediaFile>, digests: seq<string>, x: string)
    requires |files| == |digests|
    ensures Digest(x) in Later(files, digests) <==> |Positions(digests, x)| >= 2
    ensures Digest(x) in Later(files, digests) ==>
            Later(files, digests)[Digest(x)] == Pick(files, Positions(digests, x)[1..])
    decreases |files|
  {
    if files != [] {
      var n := |files| - 1;
      LaterCopies(files[..n], digests[..n], x);
      LaterCopiesStep(files, digests, x);
    }
  }

  /** One more file keeps `LaterCopies` true. */
  lemma LaterCopiesStep(files: seq<MediaFile>, digests: seq<string>, x: string)
    requires |files| == |digests| && files != []
    requires var n := |files| - 1;
             (Digest(x) in Later(files[..n], digests[..n]) <==> |Positions(digests[..n], x)| >= 2)
             && (Digest(x) in Later(files[..n], digests[..n]) ==>
                 Later(files[..n], digests[..n])[Digest(x)] == Pick(files[..n], Positions(digests[..n], x)[1..]))
    ensures Digest(x) in Later(files, digests) <==> |Positions(digests, x)| >= 2
    ensures Digest(x) in Later(files, digests) ==>
            Later(files, digests)[Digest(x)] == Pick(files, Positions(digests, x)[1..])
  {
    var n := |files| - 1;
    var d := digests[n];
    var prev := Later(files[..n], digests[..n]);
    var ps := Positions(digests[..n], x);
    assert Later(files, digests) == if d in digests[..n] then Append(prev, Digest(d), files[n]) else prev;
    assert Positions(digests, x) == ps + (if d == x then [n] else []);
    PositionsOfPresent(digests[..n], x);
    if |ps| >= 1 {
      PickExtend(files, ps[1..], n);
      if x == d {
        assert (ps + [n])[1..] == ps[1..] + [n];
      }
    }
  }

  /**
   * A hash pass over a library from the constructor's state never raises;
   * it reports a digest exactly when at least three files carry it, with
   * every copy but the first, in library order; the first copy stays in
   * `file_hashes`.
   */
  lemma FreshHashReport(files: seq<MediaFile>, digests: seq<string>, x: string)
    requires |files| == |digests|
    ensures var o := HashPass(files, digests, map[], map[], true);
            && !o.raised
            && (Digest(x) in KeepShared(o.dups) <==> multiset(digests)[x] >= 3)
            && (Digest(x) in KeepShared(o.dups) ==>
                  |Positions(digests, x)| >= 3
                  && KeepShared(o.dups)[Digest(x)] == Pick(files, Positions(digests, x)[1..]))
            && (x in digests <==> x in o.fileHashes)
            && (x in digests ==> |Positions(digests, x)| > 0 && o.fileHashes[x] == files[Positions(digests, x)[0]])
            && (forall k :: k in o.dups ==> k.Digest?)
  {
    HashPassFromFresh(files, digests);
    LaterCopies(files, digests, x);
    PositionsAreIndices(digests, x);
    if x in digests {
      FirstsAreFirst(files, digests, x);
    }
  }

  /**
   * The grouping the hash pass evidently intends: every file whose digest
   * another file shares, the first copy included.
   */
  function DigestGroups(files: seq<MediaFile>, digests: seq<string>): map<string, seq<MediaFile>>
    requires |files| == |digests|
  {
    SharedGroups(files, digests)
  }

  /**
   * The intended grouping reports a digest as soon as two files carry it,
   * lists all of them in library order, and the hash pass as written
   * reports only its list without the first copy, and only from three
   * copies on.
   */
  lemma DigestGroupsComplete(files: seq<MediaFile>, digests: seq<string>, x: string)
    requires |files| == |digests|
    ensures x in DigestGroups(files, digests) <==> multiset(digests)[x] >= 2
    ensures x in DigestGroups(files, digests) ==>
            DigestGroups(files, digests)[x] == Pick(files, Positions(digests, x))
    ensures var written := KeepShared(HashPass(files, digests, map[], map[], true).dups);
            Digest(x) in written ==> x in DigestGroups(files, digests) && written[Digest(x)] == DigestGroups(files, digests)[x][1..]
  {
    FreshHashReport(files, digests, x);
    PositionsAreIndices(digests, x);
    if multiset(digests)[x] >= 2 {
      assert x in digests;
      var i := Positions(digests, x)[0];
      SharedGroupsPartition(files, digests, i);
      SharedGroupsSound(files, digests, x);
      var ps := Positions(digests, x);
      assert Pick(files, ps)[1..] == Pick(files, ps[1..]);
    } else {
      SingletonDropped(files, digests, x);
    }
  }

  /** As written, two identical files are not reported at all. */
  lemma PairMissedByHash(a: MediaFile, b: MediaFile, d: string)
    ensures var o := HashPass([a, b], [d, d], map[], map[], true);
            !o.raised && o.dups == map[Digest(d) := [b]] && KeepShared(o.dups) == map[]
    ensures d in DigestGroups([a, b], [d, d])
  {
    assert [a, b][1..] == [b] && [d, d][1..] == [d];
    assert [b][1..] == [] && [d][1..] == [];
    assert HashPass([a, b], [d, d], map[], map[], true) == HashPass([b], [d], map[d := a], map[], true);
    assert HashPass([b], [d], map[d := a], map[], true)
        == HashPass([], [], map[d := a], Append(map[], Digest(d), b), true);
    var none: seq<MediaFile> := [];
    assert none + [b] == [b];
    assert Append(map[], Digest(d), b) == map[Digest(d) := [b]];
    DigestGroupsComplete([a, b], [d, d], d);
  }

  /**
   * As written, a second hash pass over the same library raises `KeyError`:
   * the first pass replaced the `defaultdict` by a plain dictionary without
   * the pair's digest.
   */
  lemma RepeatedHashPassRaises(a: MediaFile, b: MediaFile, d: string)
    ensures var first := HashPass([a, b], [d, d], map[], map[], true);
            !first.raised && HashPass([a, b], [d, d], map[], KeepShared(first.dups), false).raised
  {
    PairMissedByHash(a, b, d);
    assert [a, b][1..] == [b] && [d, d][1..] == [d];
  }

  /** `suggest_removal` keeps the file at index 0 and suggests deleting every other, in order. */
  predicate SuggestsAllButFirst(files: seq<MediaFile>, suggested: seq<MediaFile>)
  {
    && (|files| == 0 ==> suggested == [])
    && (|files| > 0 ==> |suggested| == |files| - 1)
    && (forall i :: 0 <= i < |suggested| ==> i + 1 < |files| && suggested[i] == files[i + 1])
  }

  /** The grouping loop of the corrected hash pass: every file under its digest, in library order. */
  method GroupByDigest(library: seq<MediaFile>, digest: string -> string)
    returns (hashMap: map<string, seq<MediaFile>>)
    ensures hashMap == MultiMap(library, Digests(library, digest))
  {
    ghost var digests := Digests(library, digest);
    hashMap := map[];
    var i := 0;
    while i < |library|
      invariant 0 <= i <= |library|
      invariant hashMap == MultiMap(library[..i], digests[..i])
    {
      var mediaFile := library[i];
      var fileHash := digest(mediaFile.filePath);
      assert library[..i + 1][..i] == library[..i] && digests[..i + 1][..i] == digests[..i];
      hashMap := Append(hashMap, fileHash, mediaFile);
      i := i + 1;
    }
    assert library[..i] == library && digests[..i] == digests;
  }

  /** The loop of `find_duplicates_by_metadata`: every file under its metadata key, in library order. */
  method GroupByMetadata(library: seq<MediaFile>) returns (metadataMap: map<MetadataKey, seq<MediaFile>>)
    ensures metadataMap == MultiMap(library, MetadataKeys(library))
  {
    ghost var keys := MetadataKeys(library);
    metadataMap := map[];
    var i := 0;
    while i < |library|
      invariant 0 <= i <= |library|
      invariant metadataMap == MultiMap(library[..i], keys[..i])
    {
      var mediaFile := library[i];
      var metadataKey := GenerateMetadataKey(mediaFile);
      assert library[..i + 1][..i] == library[..i] && keys[..i + 1][..i] == keys[..i];
      metadataMap := Append(metadataMap, metadataKey, mediaFile);
      i := i + 1;
    }
    assert library[..i] == library && keys[..i] == keys;
  }

  class DuplicateFinder {
    const manager: MediaManager
    /** `self.duplicates`. */
    var duplicates: Groups
    /** Whether `self.duplicates` is still the constructor's `defaultdict(list)`. */
    var defaulting: bool

    /** `DuplicateFinder(media_manager)`: an empty `defaultdict(list)`. */
    constructor (manager: MediaManager)
      ensures this.manager == manager
      ensures duplicates == map[] && defaulting
    {
      this.manager := manager;
      duplicates := map[];
      defaulting := true;
    }

    /**
     * `find_duplicates_by_hash`: the loop of `HashPass` over the library,
     * then, unless it raised, only the lists with more than one file are
     * kept in a plain dictionary. `digest` stands for `hash_file`.
     */
    method FindDuplicatesByHash(digest: string -> string) returns (raised: bool)
      modifies this
      ensures var o := HashPass(manager.library, Digests(manager.library, digest), map[], old(duplicates), old(defaulting));
              raised == o.raised && duplicates == (if o.raised then o.dups else KeepShared(o.dups))
      ensures !defaulting
    {
      var library := manager.library;
      ghost var digests := Digests(library, digest);
      var fileHashes: map<string, MediaFile> := map[];
      var i := 0;
      while i < |library|
        invariant 0 <= i <= |library|
        invariant defaulting == old(defaulting)
        invariant HashPass(library[i..], digests[i..], fileHashes, duplicates, defaulting)
               == HashPass(library, digests, map[], old(duplicates), old(defaulting))
      {
        var mediaFile := library[i];
        var fileHash := digest(mediaFile.filePath);
        assert library[i..][1..] == library[i + 1..] && digests[i..][1..] == digests[i + 1..];
        if fileHash in fileHashes {
          if !defaulting && Digest(fileHash) !in duplicates {
            return true;
          }
          duplicates := Append(duplicates, Digest(fileHash), mediaFile);
        } else {
          fileHashes := fileHashes[fileHash := mediaFile];
        }
        i := i + 1;
      }
      duplicates := KeepShared(duplicates);
      defaulting := false;
      raised := false;
    }

    /**
     * The evident intent of `find_duplicates_by_hash`: group every file by
     * digest in a fresh `defaultdict`, first copies included, whatever the
     * finder held before.
     */
    method FindDigestGroups(digest: string -> string)
      modifies this
      ensures duplicates == LiftDigest(DigestGroups(manager.library, Digests(manager.library, digest)))
      ensures !defaulting
    {
      var hashMap := GroupByDigest(manager.library, digest);
      duplicates := LiftDigest(KeepShared(hashMap));
      defaulting := false;
    }

    /**
     * `find_duplicates_by_metadata`: files are grouped by their metadata
     * key in a local `defaultdict`, and the groups with more than one file
     * replace `self.duplicates`.
     */
    method FindDuplicatesByMetadata()
      modifies this
      ensures duplicates == LiftMeta(SharedGroups(manager.library, old(MetadataKeys(manager.library))))
      ensures !defaulting
    {
      var metadataMap := GroupByMetadata(manager.library);
      duplicates := LiftMeta(KeepShared(metadataMap));
      defaulting := false;
    }

    /** `suggest_removal`: the files after index 0, in order; the list itself is left alone. */
    method SuggestRemoval(files: seq<MediaFile>) returns (suggested: seq<MediaFile>)
      ensures SuggestsAllButFirst(files, suggested)
    {
      var keepIndex := 0;
      suggested := [];
      var i := 0;
      while i < |files|
        invariant 0 <= i <= |files|
        invariant |suggested| == if i == 0 then 0 else i - 1
        invariant forall j :: 0 <= j < |suggested| ==> suggested[j] == files[j + 1]
      {
        if i != keepIndex {
          suggested := suggested + [files[i]];
        }
        i := i + 1;
      }
    }

    /** `resolve_duplicates`: the suggestion for every group of `self.duplicates`. */
    method ResolveDuplicates() returns (suggestions: map<DupKey, seq<MediaFile>>)
      ensures suggestions.Keys == duplicates.Keys
      ensures forall k :: k in suggestions ==> SuggestsAllButFirst(duplicates[k], suggestions[k])
    {
      suggestions := map[];
      var remaining := duplicates.Keys;
      while remaining != {}
        invariant remaining <= duplicates.Keys
        invariant suggestions.Keys == duplicates.Keys - remaining
        invariant forall k :: k in suggestions ==> SuggestsAllButFirst(duplicates[k], suggestions[k])
        decreases |remaining|
      {
        var hashKey :| hashKey in remaining;
        var suggested := SuggestRemoval(duplicates[hashKey]);
        suggestions := suggestions[hashKey := suggested];
        remaining := remaining - {hashKey};
      }
    }
  }
}
