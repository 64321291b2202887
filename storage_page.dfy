/**
 * The storage page: the mount table, and a file explorer whose current
 * directory is shown as breadcrumbs with a `..` row, whose files open in a
 * viewer (images and videos) or an editor (everything else).
 */
module StoragePage {
  import opened Wrappers
  import opened Text
  import opened Telemetry
  import Seqs

  // ---------------------------------------------------------------------------
  // Paths.

  predicate NonEmpty(part: string) {
    part != ""
  }

  /** Directory names: non-empty, without a slash. */
  predicate Segments(parts: seq<string>) {
    forall i :: 0 <= i < |parts| ==> parts[i] != "" && '/' !in parts[i]
  }

  lemma DropEmptyPieces(pieces: seq<string>)
    requires forall i :: 0 <= i < |pieces| ==> '/' !in pieces[i]
    ensures Segments(Seqs.Filter(pieces, NonEmpty))
  {
    var r := Seqs.Filter(pieces, NonEmpty);
    forall i | 0 <= i < |r| ensures r[i] != "" && '/' !in r[i] {
      assert r[i] in r;
      var j :| 0 <= j < |pieces| && pieces[j] == r[i];
    }
  }

  /** `currentPath.split('/').filter(Boolean)`: the directory names along the path. */
  function PathParts(path: string): (r: seq<string>)
    ensures Segments(r)
  {
    DropEmptyPieces(Split(path, '/'));
    Seqs.Filter(Split(path, '/'), NonEmpty)
  }

  /** The absolute path naming the directory `parts`. */
  function Absolute(parts: seq<string>): string {
    "/" + Join(parts, '/')
  }

  /** The parts of an absolute path are its segments: parsing undoes `Absolute`. */
  lemma PathPartsOfAbsolute(parts: seq<string>)
    requires Segments(parts)
    ensures PathParts(Absolute(parts)) == parts
  {
    var j := Join(parts, '/');
    assert Absolute(parts) == "" + ['/'] + j;
    SplitAround("", '/', j);
    assert Split("", '/') == [""];
    if parts == [] {
      assert Split(Absolute(parts), '/') == ["", ""];
      assert Seqs.Filter([""], NonEmpty) == [];
      Seqs.FilterConcat([""], [""], NonEmpty);
    } else {
      SplitJoin(parts, '/');
      assert Split(Absolute(parts), '/') == [""] + parts;
      Seqs.FilterConcat([""], parts, NonEmpty);
      assert Seqs.Filter([""], NonEmpty) == [];
      Seqs.FilterKeepsAll(parts, NonEmpty);
    }
  }

  /** Different directories have different absolute paths. */
  lemma AbsoluteInjective(parts: seq<string>, other: seq<string>)
    requires Segments(parts) && Segments(other)
    ensures Absolute(parts) == Absolute(other) <==> parts == other
  {
    PathPartsOfAbsolute(parts);
    PathPartsOfAbsolute(other);
  }

  /** `'/' + pathParts.slice(0, index + 1).join('/')`. */
  function Breadcrumb(parts: seq<string>, index: nat): string
    requires index < |parts|
  {
    Absolute(parts[..index + 1])
  }

  /**
   * Breadcrumb `index` leads to the directory made of the first `index + 1`
   * parts, and the last breadcrumb to the current directory, with repeated
   * and trailing slashes dropped.
   */
  lemma BreadcrumbSpec(path: string, index: nat)
    requires index < |PathParts(path)|
    ensures PathParts(Breadcrumb(PathParts(path), index)) == PathParts(path)[..index + 1]
    ensures index == |PathParts(path)| - 1 ==> Breadcrumb(PathParts(path), index) == Absolute(PathParts(path))
  {
    var parts := PathParts(path);
    PathPartsOfAbsolute(parts[..index + 1]);
    if index == |parts| - 1 {
      assert parts[..index + 1] == parts;
    }
  }

  /** On a clean absolute path the last breadcrumb is the path itself. */
  lemma LastBreadcrumbIsPath(parts: seq<string>)
    requires Segments(parts) && |parts| > 0
    ensures |PathParts(Absolute(parts))| == |parts|
      && Breadcrumb(PathParts(Absolute(parts)), |parts| - 1) == Absolute(parts)
  {
    PathPartsOfAbsolute(parts);
    assert parts[..|parts|] == parts;
  }

  /** `currentPath.split('/').slice(0, -1).join('/') || '/'`. */
  function ParentPath(path: string): string {
    var pieces := Split(path, '/');
    var joined := Join(pieces[..|pieces| - 1], '/');
    if joined == "" then "/" else joined
  }

  /** Joining behind an empty first piece puts a slash in front. */
  lemma JoinAfterEmpty(parts: seq<string>)
    requires |parts| > 0
    ensures Join([""] + parts, '/') == Absolute(parts)
  {
    assert ([""] + parts)[1..] == parts;
  }

  /** The parent of a directory is the directory one segment up; the root's children have the root. */
  lemma ParentOfAbsolute(parts: seq<string>)
    requires Segments(parts) && |parts| > 0
    ensures ParentPath(Absolute(parts)) == Absolute(parts[..|parts| - 1])
  {
    var j := Join(parts, '/');
    assert Absolute(parts) == "" + ['/'] + j;
    SplitAround("", '/', j);
    SplitJoin(parts, '/');
    var pieces := [""] + parts;
    assert Split(Absolute(parts), '/') == pieces;
    assert pieces[..|pieces| - 1] == [""] + parts[..|parts| - 1];
    if |parts| > 1 {
      JoinAfterEmpty(parts[..|parts| - 1]);
    } else {
      assert Join([""], '/') == "";
      assert parts[..0] == [];
    }
  }

  /** The parent's parts are the current parts without the last one. */
  lemma ParentDropsLastPart(parts: seq<string>)
    requires Segments(parts) && |parts| > 0
    ensures PathParts(ParentPath(Absolute(parts))) == parts[..|parts| - 1]
  {
    ParentOfAbsolute(parts);
    PathPartsOfAbsolute(parts[..|parts| - 1]);
  }

  lemma ParentExamples()
    ensures ParentPath("/a/b") == "/a"
    ensures ParentPath("/a") == "/"
  {
    ParentOfAbsolute(["a", "b"]);
    assert Absolute(["a", "b"]) == "/a/b";
    assert Absolute(["a", "b"][..1]) == "/a";
    ParentOfAbsolute(["a"]);
    assert Absolute(["a"]) == "/a";
    assert Absolute(["a"][..0]) == "/";
  }

  /** The `..` row is offered everywhere but at the root. */
  predicate ShowParentRow(currentPath: string) {
    currentPath != "/"
  }

  // ---------------------------------------------------------------------------
  // File kinds.

  /** `file.name.split('.').pop().toLowerCase()`. */
  function Extension(name: string): (r: string)
    ensures '.' !in r
  {
    var pieces := Split(name, '.');
    LowerKeepsNonLetters(pieces[|pieces| - 1], '.');
    Lower(pieces[|pieces| - 1])
  }

  /** The extension is the text after the last dot, lower-cased. */
  lemma ExtensionAfterLastDot(stem: string, ext: string)
    requires '.' !in ext
    ensures Extension(stem + "." + ext) == Lower(ext)
  {
    assert stem + "." + ext == stem + ['.'] + ext;
    SplitLastAfterSeparator(stem, '.', ext);
  }

  /** A name without a dot is its own extension. */
  lemma ExtensionWithoutDot(name: string)
    requires '.' !in name
    ensures Extension(name) == Lower(name)
  {
    SplitNoSeparator(name, '.');
  }

  const ImageExtensions: seq<string> := ["jpg", "jpeg", "png", "gif", "webp", "svg"]
  const VideoExtensions: seq<string> := ["mp4", "webm", "ogg"]

  datatype Kind = Image | Video | Editable

  /** `isImg`, then `isVid`, else a text file. */
  function Classify(name: string): (k: Kind)
    ensures k == Image <==> Extension(name) in ImageExtensions
    ensures k == Video <==> Extension(name) !in ImageExtensions && Extension(name) in VideoExtensions
  {
    var ext := Extension(name);
    if ext in ImageExtensions then Image
    else if ext in VideoExtensions then Video
    else Editable
  }

  /** `isImg || isVid`. */
  predicate IsMedia(name: string) {
    Classify(name) != Editable
  }

  /** The extension is compared lower-cased: `.JPG` is an image whatever the name before it. */
  lemma UpperCaseImage(stem: string)
    ensures Classify(stem + ".JPG") == Image
  {
    assert stem + ".JPG" == stem + "." + "JPG";
    ExtensionAfterLastDot(stem, "JPG");
    assert Lower("JPG") == "jpg";
    assert Extension(stem + ".JPG") == ImageExtensions[0];
  }

  lemma WebmIsVideo(stem: string)
    ensures Classify(stem + ".webm") == Video
  {
    assert stem + ".webm" == stem + "." + "webm";
    ExtensionAfterLastDot(stem, "webm");
    assert Lower("webm") == "webm";
    assert Extension(stem + ".webm") == VideoExtensions[1];
    forall i | 0 <= i < |ImageExtensions| ensures ImageExtensions[i] != "webm" {
      assert |ImageExtensions[i]| != 4 || ImageExtensions[i][3] != 'm';
    }
  }

  /** Only the last extension counts: an archive `.tar.gz` opens in the editor. */
  lemma LastExtensionOnly(stem: string)
    ensures Classify(stem + ".tar.gz") == Editable
  {
    assert stem + ".tar.gz" == (stem + ".tar") + "." + "gz";
    ExtensionAfterLastDot(stem + ".tar", "gz");
    assert Lower("gz") == "gz";
    assert Extension(stem + ".tar.gz") == "gz";
    forall i | 0 <= i < |ImageExtensions| ensures ImageExtensions[i] != "gz" {
      assert ImageExtensions[i][0] != 'g' || |ImageExtensions[i]| != 2;
    }
    forall i | 0 <= i < |VideoExtensions| ensures VideoExtensions[i] != "gz" {
      assert VideoExtensions[i][0] != 'g';
    }
  }

  /** The viewer's test `/\.(mp4|webm|ogg)$/i`: play as a video rather than show as an image. */
  predicate PlaysAsVideo(name: string) {
    exists i :: 0 <= i < |VideoExtensions| && EndsWith(Lower(name), "." + VideoExtensions[i])
  }

  /** A suffix that starts with the last dot of `s` is the text after that dot. */
  lemma SuffixFromLastDot(stem: string, ext: string, e: string)
    requires '.' !in ext && '.' !in e
    requires EndsWith(stem + "." + ext, "." + e)
    ensures ext == e
  {
    var s := stem + "." + ext;
    var k := |s| - |e| - 1;
    assert s == stem + ['.'] + ext;
    LastIndexOfBefore(stem, '.', ext);
    assert s[k..] == "." + e;
    assert s == s[..k] + ['.'] + e;
    LastIndexOfBefore(s[..k], '.', e);
    assert ext == s[|stem| + 1..] == e;
  }

  /** Lower-casing a dotted name lower-cases both sides and keeps the dot. */
  lemma LowerDottedName(stem: string, ext: string)
    requires '.' !in ext
    ensures Lower(stem + "." + ext) == Lower(stem) + "." + Lower(ext)
    ensures '.' !in Lower(ext)
    ensures Extension(stem + "." + ext) == Lower(ext)
  {
    ExtensionAfterLastDot(stem, ext);
    LowerConcat(stem + ".", ext);
    LowerConcat(stem, ".");
    LowerKeepsNonLetters(ext, '.');
  }

  /** A name that passes the viewer's regex was classified as a video. */
  lemma PlayedVideoIsClassifiedVideo(stem: string, ext: string)
    requires '.' !in ext && PlaysAsVideo(stem + "." + ext)
    ensures Classify(stem + "." + ext) == Video
  {
    var name := stem + "." + ext;
    LowerDottedName(stem, ext);
    var i :| 0 <= i < |VideoExtensions| && EndsWith(Lower(name), "." + VideoExtensions[i]);
    SuffixFromLastDot(Lower(stem), Lower(ext), VideoExtensions[i]);
  }

  /** A name classified as a video passes the viewer's regex. */
  lemma ClassifiedVideoIsPlayed(stem: string, ext: string)
    requires '.' !in ext && Classify(stem + "." + ext) == Video
    ensures PlaysAsVideo(stem + "." + ext)
  {
    var name := stem + "." + ext;
    LowerDottedName(stem, ext);
    var i :| 0 <= i < |VideoExtensions| && VideoExtensions[i] == Lower(ext);
    assert Lower(name)[|Lower(name)| - |Lower(ext)| - 1..] == "." + Lower(ext);
  }

  /**
   * For a name with a dot, the viewer plays a video exactly when the
   * classification said video.
   */
  lemma ViewerAgreesWithClassify(stem: string, ext: string)
    requires '.' !in ext
    ensures PlaysAsVideo(stem + "." + ext) <==> Classify(stem + "." + ext) == Video
  {
    if PlaysAsVideo(stem + "." + ext) {
      PlayedVideoIsClassifiedVideo(stem, ext);
    }
    if Classify(stem + "." + ext) == Video {
      ClassifiedVideoIsPlayed(stem, ext);
    }
  }

  /**
   * A file named just `mp4` is classified as a video, since its whole name
   * is the extension, yet the viewer finds no `.mp4` and shows it as an image.
   */
  lemma BareVideoNameShownAsImage()
    ensures Classify("mp4") == Video && !PlaysAsVideo("mp4")
  {
    ExtensionWithoutDot("mp4");
    assert Lower("mp4") == "mp4";
    forall i | 0 <= i < |VideoExtensions| ensures !EndsWith(Lower("mp4"), "." + VideoExtensions[i]) {
      assert |"." + VideoExtensions[i]| > 3 || ("." + VideoExtensions[i])[0] != Lower("mp4")[0];
    }
  }

  // ---------------------------------------------------------------------------
  // The mount table.

  predicate HasSize(e: FsEntry) {
    e.size > 0
  }

  /** `data.fs.filter(f => f.size > 0)`. */
  function FsTable(fs: seq<FsEntry>): (r: seq<FsEntry>)
    ensures forall e :: e in r <==> e in fs && e.size > 0
    ensures forall e :: multiset(r)[e] == if e.size > 0 then multiset(fs)[e] else 0
    ensures Seqs.IsSubsequence(r, fs)
  {
    Seqs.FilterMultiset(fs, HasSize);
    Seqs.FilterKeepsOrder(fs, HasSize);
    Seqs.Filter(fs, HasSize)
  }

  // ---------------------------------------------------------------------------
  // The explorer.

  /** An entry of a directory listing. */
  datatype FileEntry = FileEntry(name: string, path: string, isDirectory: bool, size: int)

  /** The body of the save request. */
  datatype SaveRequest = SaveRequest(path: string, content: Option<string>)

  class Explorer {
    var currentPath: string
    var files: seq<FileEntry>
    var viewOpen: bool
    var selectedFile: Option<FileEntry>
    var fileContent: Option<string>
    var isMedia: bool

    /** The media flag describes the selected file, and text is only loaded for a non-media file. */
    ghost predicate Valid()
      reads this
    {
      && (isMedia ==> selectedFile.Some? && IsMedia(selectedFile.value.name))
      && (fileContent.Some? ==> selectedFile.Some? && !isMedia)
    }

    constructor ()
      ensures Valid()
      ensures currentPath == "/" && files == [] && !viewOpen
      ensures selectedFile == None && fileContent == None && !isMedia
    {
      currentPath := "/";
      files := [];
      viewOpen := false;
      selectedFile := None;
      fileContent := None;
      isMedia := false;
    }

    /**
     * `fetchFiles(path)`: `listing` is the listing of a successful reply, or
     * `None` when the request failed or the status was not ok.
     */
    method FetchFiles(path: string, listing: Option<seq<FileEntry>>)
      requires Valid()
      modifies this
      ensures Valid()
      ensures listing.Some? ==> files == listing.value && currentPath == path
      ensures listing.None? ==> files == old(files) && currentPath == old(currentPath)
      ensures viewOpen == old(viewOpen) && selectedFile == old(selectedFile)
      ensures fileContent == old(fileContent) && isMedia == old(isMedia)
    {
      if listing.Some? {
        files := listing.value;
        currentPath := path;
      }
    }

    /**
     * `handleFileClick(file)`: a directory is listed (with `listing` as the
     * reply); any other file opens the viewer, and a non-media file's text
     * (`text`, `None` if the request failed) is loaded into the editor.
     */
    method HandleFileClick(file: FileEntry, listing: Option<seq<FileEntry>>, text: Option<string>)
      requires Valid()
      modifies this
      ensures Valid()
      ensures file.isDirectory ==>
        (if listing.Some? then files == listing.value && currentPath == file.path
         else files == old(files) && currentPath == old(currentPath))
        && viewOpen == old(viewOpen) && selectedFile == old(selectedFile)
        && fileContent == old(fileContent) && isMedia == old(isMedia)
      ensures !file.isDirectory ==>
        selectedFile == Some(file) && viewOpen && isMedia == IsMedia(file.name)
        && fileContent == (if IsMedia(file.name) then None else text)
        && files == old(files) && currentPath == old(currentPath)
    {
      if file.isDirectory {
        FetchFiles(file.path, listing);
      } else {
        selectedFile := Some(file);
        viewOpen := true;
        fileContent := None;
        var kind := Classify(file.name);
        if kind == Image || kind == Video {
          isMedia := true;
        } else {
          isMedia := false;
          fileContent := text;
        }
      }
    }

    /** Typing in the editor. */
    method EditContent(text: string)
      requires Valid() && selectedFile.Some? && !isMedia
      modifies this
      ensures Valid()
      ensures fileContent == Some(text)
      ensures currentPath == old(currentPath) && files == old(files) && viewOpen == old(viewOpen)
      ensures selectedFile == old(selectedFile) && isMedia == old(isMedia)
    {
      fileContent := Some(text);
    }

    /**
     * `handleSave`: with a selected non-media file, posts its path and the
     * edited content, and closes the viewer when the request went out
     * (`delivered`); otherwise does nothing.
     */
    method HandleSave(delivered: bool) returns (request: Option<SaveRequest>)
      requires Valid()
      modifies this
      ensures Valid()
      ensures request.None? <==> old(selectedFile).None? || old(isMedia)
      ensures request.Some? ==> request.value == SaveRequest(old(selectedFile).value.path, old(fileContent))
      ensures viewOpen == (if request.Some? && delivered then false else old(viewOpen))
      ensures currentPath == old(currentPath) && files == old(files) && selectedFile == old(selectedFile)
      ensures fileContent == old(fileContent) && isMedia == old(isMedia)
    {
      if selectedFile.None? || isMedia {
        return None;
      }
      request := Some(SaveRequest(selectedFile.value.path, fileContent));
      if delivered {
        viewOpen := false;
      }
    }
  }
}
