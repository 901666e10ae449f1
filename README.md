# Media manager core, modelled in Dafny

This project models the core of `mediamgmt.py`, a small media-library manager, and proves properties of that model:

- **MediaManager** scans a directory tree. It keeps one `MediaFile` for every file whose name ends in a supported extension, and it summarises the library.
- **MediaFile** classifies its path as an image or a video by its `splitext` extension. It extracts metadata on creation and accepts tags.
- **DuplicateFinder** groups the library in one of two ways: by content digest, or by a key of four metadata fields plus the extension. It suggests keeping the first file of each group and deleting the rest.
- **MediaCache** is an SQLite table with one row per path, which `update_metadata` upserts and `get_metadata` reads.

The modules follow the program:

| module | file | what it holds |
|---|---|---|
| `Optional` | `optional.dfy` | the `Option` datatype for lookups that may find nothing |
| `Paths` | `paths.dfy` | `str.lower`, `str.endswith`, and the POSIX `os.path.join` and `os.path.splitext` |
| `MediaFiles` | `media_file.dfy` | the `MediaFile` class |
| `Library` | `media_manager.dfy` | the `MediaManager` class |
| `Grouping` | `grouping.dfy` | the `defaultdict(list)` grouping loop, stated once for any key |
| `Duplicates` | `duplicate_finder.dfy` | the `DuplicateFinder` class |
| `Cache` | `media_cache.dfy` | the `MediaCache` class over a map |

Everything outside the program becomes a parameter:

- the directory walk is a sequence of `(root, dirs, files)` entries in `os.walk` order;
- the EXIF reader is a function from a path to a metadata map;
- `hash_file` is a function from a path to its hex digest;
- `CURRENT_TIMESTAMP` is the `now` argument of each update.

`self.duplicates` can hold digest strings or metadata tuples as keys, so its keys are the datatype `DupKey`. The model tracks whether that dictionary is still the constructor's `defaultdict` with the flag `defaulting`. This matters because each pass replaces it with a plain dictionary, on which a missing key raises `KeyError`.

## Model

| member | source | states |
|---|---|---|
| Paths.SplitExtParts | mediamgmt.py:113 | `splitext` splits a path into a root and an extension that is a suffix of it. The extension is empty, or a dot followed by characters that are neither dots nor slashes. |
| Paths.ExtensionOfName | mediamgmt.py:113 | In a name without '/', a final '.' starts the extension when some character other than '.' comes before it. The extension then runs from that '.' to the end. |
| Paths.NoExtensionWhenOnlyDotsBefore | mediamgmt.py:113 | When only dots precede the last '.' of a name, or the name has no '.', the extension is empty. This covers dot files such as `.jpg`. |
| Paths.ExtensionLower | mediamgmt.py:113 | The extension of a lower-cased path is the lower-cased extension of the path. |
| Paths.ExtensionOfJoin | mediamgmt.py:38 | Joining a directory and a plain file name gives the path the extension of the file name. |
| MediaFiles.ImageAndVideoExclusive | mediamgmt.py:111-118 | No path is both an image and a video. |
| MediaFiles.UpperCaseExtensionClassifies | mediamgmt.py:113 | The classification ignores case: `X.PNG` is an image and `clips/Y.MoV` is a video. Only the last extension counts, so `X.PNG.txt` is not an image. |
| MediaFiles.ClassifyIgnoresCase | mediamgmt.py:111-118 | For every path, lower-casing it changes neither `is_image` nor `is_video`. |
| MediaFiles.ExtractMetadataDispatch | mediamgmt.py:75-83 | Extraction gives an image its EXIF map, a video the fixed `duration`/`resolution` placeholder, and any other path an empty map. |
| MediaFiles.MediaFile.constructor | mediamgmt.py:69-73 | A new file keeps its path, and its metadata is extracted once, on creation. |
| MediaFiles.MediaFile.TagFile | mediamgmt.py:120-123 | Tagging sets the `tags` entry to the new tags and leaves every other entry as it was. |
| Library.MediaManager.constructor | mediamgmt.py:23-28 | A new manager starts with an empty library. |
| Library.MediaManager.ScanFiles | mediamgmt.py:30-40 | The library keeps its old entries as a prefix. The new entries' paths are exactly the joined paths of the supported names, in walk order and file order. Each new entry is a new object whose metadata was extracted from its own path. |
| Library.MediaManager.ScanDirectory | mediamgmt.py:36-40 | The same guarantee for the files of one directory. |
| Library.ScannedPathsMembers | mediamgmt.py:35-40 | A path is scanned if and only if it is the join of some directory root with a supported name in that directory. |
| Library.VideoOnlyExtensionsNotScanned | mediamgmt.py:33-37 | Names ending in `.avi` or `.mkv`, in any case, never pass the scan filter. |
| Library.AviVideoNotScanned | mediamgmt.py:33-37 | `clip.avi` is a video to `is_video`, yet the scan never admits it, in any directory. |
| Library.DotFileScannedButUnclassified | mediamgmt.py:37 | A file named `.jpg` passes the `endswith` filter. `splitext` gives it no extension, so it is neither an image nor a video. |
| Library.ClassifiedIsScanned | mediamgmt.py:33-37 | Every name whose path is an image, or a video with an extension other than `.avi` or `.mkv`, passes the scan filter. |
| Library.MediaManager.GetLibrarySummary | mediamgmt.py:44-52 | `total_files` is the library's length. The image and video counts are the numbers of entries that `is_image` and `is_video` accept. The two counts add up to at most the total. |
| Library.CountIfCountsEntries | mediamgmt.py:49-50 | `sum(1 for ... if p)` equals the number of entries satisfying `p`. |
| Library.SummaryAfterScan | mediamgmt.py:47-51 | After a scan, each count is the old count plus the count among the scanned paths. |
| Grouping.PositionsAreIndices | mediamgmt.py:188-190 | The positions of a key are exactly the indices holding it, in ascending order, as many as the key occurs. |
| Grouping.MembersArePicked | mediamgmt.py:188-190 | After the loop, a key's list is the files at that key's positions, in library order. |
| Grouping.MultiMapMembers | mediamgmt.py:186-190 | After the loop, the dictionary holds a key if and only if some file has it, and that key's list is its files in library order. |
| Grouping.KeepShared | mediamgmt.py:193 | The comprehension keeps exactly the lists with more than one file, unchanged. |
| Grouping.SharedGroupsSound | mediamgmt.py:193 | A reported group has at least two files, and they are exactly the files with its key, in library order. |
| Grouping.SharedGroupsPartition | mediamgmt.py:186-193 | A file's key is reported if and only if another file shares it. The file then lies in its own key's group and in no other. |
| Grouping.SingletonDropped | mediamgmt.py:193 | A key held by at most one file is not reported. |
| Duplicates.SameKeyIff | mediamgmt.py:200-206 | Two files get the same key if and only if they agree on `DateTimeOriginal`, `FileSize`, `ImageWidth`, `ImageHeight` and the raw extension. |
| Duplicates.MissingFieldsAgree | mediamgmt.py:201-204 | A field that is missing becomes `None`, so files lacking all four fields share a key whenever their extensions agree. |
| Duplicates.ExtensionCaseKept | mediamgmt.py:205 | The extension is not lower-cased: `a.JPG` and `b.jpg` never share a key. |
| Duplicates.TaggingKeepsKey | mediamgmt.py:200-206 | Tagging a file does not change its metadata key. |
| Duplicates.MetadataKeys | mediamgmt.py:188-189 | The keys of the loop, one per library entry, in library order. |
| Duplicates.HashPassFromFresh | mediamgmt.py:168-177 | From the constructor's state the hash loop never raises. It leaves `file_hashes` holding the first file of each digest, and appends every later file to its digest's list. |
| Duplicates.FirstsAreFirst | mediamgmt.py:174-177 | `file_hashes[d]` is the first file with digest `d`. |
| Duplicates.LaterCopies | mediamgmt.py:174-175 | Digest `d` has a list if and only if at least two files carry it. The list holds every such file except the first, in library order. |
| Duplicates.FreshHashReport | mediamgmt.py:168-180 | A first hash pass reports a digest if and only if at least three files carry it. It lists all of them except the first, which stays in `file_hashes`. |
| Duplicates.DigestGroupsComplete | mediamgmt.py:167 | The corrected grouping reports a digest if and only if two files carry it, and lists all of them. The pass as written reports that list without its first file. |
| Duplicates.PairMissedByHash | mediamgmt.py:174-180 | Two files with the same digest are not reported by the pass as written. The corrected grouping reports them. |
| Duplicates.RepeatedHashPassRaises | mediamgmt.py:175 | A second hash pass over two identical files raises `KeyError`. |
| Duplicates.GroupByDigest | mediamgmt.py:168-177 | The corrected loop collects every file under its digest, in library order. |
| Duplicates.GroupByMetadata | mediamgmt.py:186-190 | The metadata loop collects every file under its key, in library order. |
| Duplicates.DuplicateFinder.constructor | mediamgmt.py:150-154 | A new finder holds the manager and an empty `defaultdict`. |
| Duplicates.DuplicateFinder.FindDuplicatesByHash | mediamgmt.py:165-180 | The new state is the hash loop from the old dictionary, then the comprehension over more-than-one lists. If a missing key raises `KeyError`, the dictionary is left as the loop had it. Afterwards the dictionary never defaults. |
| Duplicates.DuplicateFinder.FindDigestGroups | mediamgmt.py:165-180 | The corrected pass: the groups of files sharing a digest, first copies included. |
| Duplicates.DuplicateFinder.FindDuplicatesByMetadata | mediamgmt.py:183-193 | The dictionary becomes the groups of at least two files sharing a metadata key, each in library order. |
| Duplicates.DuplicateFinder.SuggestRemoval | mediamgmt.py:218-229 | The file at index 0 is kept, and every other file is suggested for deletion, in order. |
| Duplicates.DuplicateFinder.ResolveDuplicates | mediamgmt.py:208-216 | Every group of the dictionary gets the suggestion of `suggest_removal`, and no other key gets one. |
| Cache.Upsert | mediamgmt.py:256-267 | After an upsert, the path has a row with the new metadata, tags and timestamp. An existing row keeps its file type. Every other row is unchanged. |
| Cache.Lookup | mediamgmt.py:269-273 | `fetchone` is `None` if and only if no row has the path. Otherwise it returns that row's columns. |
| Cache.LookupAfterUpsert | mediamgmt.py:256-273 | Reading a path after updating it returns the metadata and tags just written, with the file type of the first insert. |
| Cache.UpsertLeavesOthers | mediamgmt.py:256-267 | An update changes no other path's lookup. |
| Cache.UpsertSize | mediamgmt.py:248 | Paths are unique: an update adds a row only for a new path. |
| Cache.UpsertIdempotent | mediamgmt.py:256-267 | Repeating an update with the same values changes nothing, whatever file type the repeat names. |
| Cache.FileTypeFixed | mediamgmt.py:263-266 | Once a path has a row, no sequence of later updates changes its file type. |
| Cache.MediaCache.constructor | mediamgmt.py:235-254 | `CREATE TABLE IF NOT EXISTS` keeps the rows the database already holds. |
| Cache.MediaCache.UpdateMetadata | mediamgmt.py:256-267 | The table becomes the upsert of the old table. |

## Left out

- The directory walk, EXIF reading and hashing are inputs. `os.walk`, PIL's `Image.open`/`_getexif`, the `TAGS` renaming and the block-wise SHA-256 are not modelled. Their errors are not modelled either: the exception `extract_image_metadata` catches, and a file that vanishes before `hash_file` opens it.
- Output and sizes: every `print`, and the `os.path.getsize` calls in `suggest_removal`. The suggestions `suggest_removal` prints are returned as a list, and `resolve_duplicates` returns them in a map.
- Iteration order in `resolve_duplicates`: the model's map has no order, while Python visits keys in insertion order.
- Path handling follows POSIX (`posixpath`): `os.path.join` and `os.path.splitext` split on '/' only. On Windows, Python's `ntpath` also splits on backslashes and handles drive letters, and that behaviour is not modelled.
- `str.lower` is modelled for ASCII letters only. Python lower-cases every Unicode letter.
- The values of metadata and tags are arbitrary Python objects. The model's `MetaValue` is text, a number or a list of tags. `tag_file` takes a list of strings, and the cache stores metadata and tags as strings, which is how SQLite binds them to `TEXT` columns.
- The SQLite connection, `close`, transactions and SQL errors are not modelled, and neither is the `id` column.
- `is_modified` is left out because it can only raise: it reads `self.cache`, which is never set, and calls `get_last_modified`, which `MediaCache` does not define.
- `__repr__`, `clean_duplicates`, `organize_files`, `FileOrganizer.move_files` and `Classifier.classify_images` are not modelled. They are stubs or display code.
- `cache_db` is not modelled: the manager stores it and never uses it.
- In the source, the docstring-style comment of `generate_metadata_key` wraps onto a line that is not a comment. This is taken as a formatting slip and not modelled.
- Duplicates.DuplicateFinder.FindDuplicatesByMetadata: the keys are taken from the files' metadata at the time of the call. Files are not changed during the pass, so this is the same promise as the source's.
- Cache.MediaCache.GetMetadata has no contract of its own. It is `Cache.Lookup` on the current table, which carries the contract.

## Findings

| source | as written | input that shows it | evidently intended | confidence | as-written member | corrected member |
|---|---|---|---|---|---|---|
| mediamgmt.py:174-180 | The first file with a digest goes to `file_hashes` and never into `self.duplicates`. Only later copies are listed, and the `len(files) > 1` filter then drops digests shared by exactly two files. | A library of two files with identical contents: nothing is reported. With three copies, only the second and third are listed. | Every set of files sharing a digest is reported, with all of its files. | not executed | Duplicates.PairMissedByHash | Duplicates.DigestGroupsComplete |
| mediamgmt.py:175 | The first pass replaces the `defaultdict` with a plain dictionary. A later pass appends to `self.duplicates[file_hash]` for a digest that has no list, which raises `KeyError`. | Two files with identical contents, and `find_duplicates_by_hash` called twice. | Each pass recomputes the groups from scratch. | not executed | Duplicates.RepeatedHashPassRaises | Duplicates.DuplicateFinder.FindDigestGroups |
