/**
 * One catalogued file: its path, the metadata extracted for it when it was
 * created, and the classification of paths into images and videos by
 * extension.
 */
module MediaFiles {
  import opened Paths

  /** A metadata value: EXIF strings and numbers, or a list of tags. */
  datatype MetaValue = Text(text: string) | Number(n: int) | TagList(tags: seq<string>)

  type Metadata = map<string, MetaValue>

  const ImageExtensions: seq<string> := [".jpg", ".jpeg", ".png", ".gif"]
  const VideoExtensions: seq<string> := [".mp4", ".mov", ".avi", ".mkv"]

  /** `MediaFile.is_image`: the lower-cased `splitext` extension is an image extension. */
  predicate IsImage(path: string)
  {
    Lower(Extension(path)) in ImageExtensions
  }

  /** `MediaFile.is_video`: the lower-cased `splitext` extension is a video extension. */
  predicate IsVideo(path: string)
  {
    Lower(Extension(path)) in VideoExtensions
  }

  /** The two extension lists are disjoint, so no path is both an image and a video. */
  lemma ImageAndVideoExclusive(path: string)
    ensures !(IsImage(path) && IsVideo(path))
  {
  }

  /** The comparison ignores case: an upper-case extension still classifies. */
  lemma UpperCaseExtensionClassifies()
    ensures IsImage("X.PNG") && IsVideo("clips/Y.MoV")
    ensures !IsImage("X.PNG.txt")
  {
    LastIndexIs("X.PNG", '/', -1);
    LastIndexIs("X.PNG", '.', 1);
    assert "X.PNG"[0] != '.';
    assert Extension("X.PNG") == ".PNG";
    assert Lower(".PNG") == ".png";
    LastIndexIs("clips/Y.MoV", '/', 5);
    LastIndexIs("clips/Y.MoV", '.', 7);
    assert "clips/Y.MoV"[6] != '.';
    assert Extension("clips/Y.MoV") == ".MoV";
    assert Lower(".MoV") == ".mov";
    LastIndexIs("X.PNG.txt", '/', -1);
    LastIndexIs("X.PNG.txt", '.', 5);
    assert "X.PNG.txt"[0] != '.';
    assert Extension("X.PNG.txt") == ".txt";
    assert Lower(".txt") == ".txt";
  }

  /** The classification ignores case for every path, not only the examples above. */
  lemma ClassifyIgnoresCase(p: string)
    ensures IsImage(Lower(p)) == IsImage(p)
    ensures IsVideo(Lower(p)) == IsVideo(p)
  {
    ExtensionLower(p);
    var e := Extension(p);
    assert Lower(Lower(e)) == Lower(e);
  }

  /** The fixed metadata `extract_video_metadata` returns for every video. */
  const VideoPlaceholder: Metadata := map["duration" := Text("Unknown"), "resolution" := Text("Unknown")]

  /**
   * `MediaFile.extract_metadata`: images get what the EXIF reader returned
   * for them (`exif`, an empty map when reading failed), videos get the
   * placeholder, anything else gets no metadata at all.
   */
  function ExtractMetadata(path: string, exif: Metadata): Metadata
  {
    if IsImage(path) then exif
    else if IsVideo(path) then VideoPlaceholder
    else map[]
  }

  /**
   * Extraction dispatches on the classification: the EXIF data for an
   * image, the placeholder for a video, and an empty map for any other path.
   */
  lemma ExtractMetadataDispatch(path: string, exif: Metadata)
    ensures IsImage(path) ==> ExtractMetadata(path, exif) == exif
    ensures IsVideo(path) ==> ExtractMetadata(path, exif) == VideoPlaceholder
    ensures !IsImage(path) && !IsVideo(path) ==> ExtractMetadata(path, exif) == map[]
  {
    ImageAndVideoExclusive(path);
  }

  class MediaFile {
    const filePath: string
    var metadata: Metadata

    /** `MediaFile(file_path)`: the metadata is extracted once, on creation. */
    constructor (filePath: string, exif: Metadata)
      ensures this.filePath == filePath
      ensures metadata == ExtractMetadata(filePath, exif)
    {
      this.filePath := filePath;
      metadata := ExtractMetadata(filePath, exif);
    }

    /** `tag_file`: the "tags" entry is set to the new tags, overwriting any earlier one. */
    method TagFile(tags: seq<string>)
      modifies this
      ensures metadata == old(metadata)["tags" := TagList(tags)]
      ensures metadata.Keys == old(metadata).Keys + {"tags"}
      ensures forall k :: k in old(metadata) && k != "tags" ==> metadata[k] == old(metadata)[k]
    {
      metadata := metadata["tags" := TagList(tags)];
    }
  }
}
