/**
 * `FileServiceImpl`: the name an uploaded image is stored under, and the
 * paths the upload writes to and the download reads from.
 */
module FileService {

  import opened Wrappers
  import opened JavaLang
  import opened Exceptions
  import opened AppConstants

  /**
   * The extensions an image may have, compared ignoring case: exactly those
   * that fold to ".png", ".jpeg" or ".jpg".
   */
  predicate AllowedExtension(ext: string)
    ensures AllowedExtension(ext) <==> FoldCase(ext) in {".png", ".jpeg", ".jpg"}
  {
    assert FoldCase(".png") == ".png" && FoldCase(".jpeg") == ".jpeg" && FoldCase(".jpg") == ".jpg";
    EqualsIgnoreCase(ext, ".png") || EqualsIgnoreCase(ext, ".jpeg") || EqualsIgnoreCase(ext, ".jpg")
  }

  /**
   * `name.substring(name.lastIndexOf("."))`: the suffix from the last dot,
   * dot included. A name without a dot asks for `substring(-1)`, which
   * throws.
   */
  function Extension(name: string): (r: Result<string, Exception>)
    ensures r.Failure? <==> '.' !in name
    ensures r.Failure? ==> r.error == StringIndexOutOfBounds(-1)
    ensures r.Success? ==> && 1 <= |r.value| <= |name|
                           && r.value[0] == '.' && '.' !in r.value[1..]
                           && name == name[..|name| - |r.value|] + r.value
  {
    var dot := LastIndexOf(name, '.');
    match Substring(name, dot)
    case None => Failure(StringIndexOutOfBounds(dot))
    case Some(ext) =>
      assert ext == name[dot..];
      assert forall k :: 1 <= k < |ext| ==> ext[k] == name[dot + k];
      Success(ext)
  }

  /**
   * `uploadImage`, as written, on the file's original name and the
   * generated base name: an empty name is refused; otherwise the extension
   * is taken, and a name with an allowed extension is stored as the base
   * followed by the extension in its original case; any other extension
   * is refused. A non-empty name without a dot throws out of the
   * extension step.
   */
  function UploadImageName(originalFilename: string, fileName: string): (r: Result<string, Exception>)
    ensures originalFilename == [] ==> r == Failure(BadApiRequest(EmptyImageMsg))
    ensures originalFilename != [] && '.' !in originalFilename ==> r == Failure(StringIndexOutOfBounds(-1))
    ensures r.Success? <==> originalFilename != [] && Extension(originalFilename).Success?
                            && AllowedExtension(Extension(originalFilename).value)
    ensures r.Success? ==> r.value == fileName + Extension(originalFilename).value
    ensures r == Failure(BadApiRequest(ExtensionMsg)) <==>
              originalFilename != [] && Extension(originalFilename).Success?
              && !AllowedExtension(Extension(originalFilename).value)
  {
    if originalFilename == [] then Failure(BadApiRequest(EmptyImageMsg))
    else
      match Extension(originalFilename)
      case Failure(e) => Failure(e)
      case Success(extension) =>
        if AllowedExtension(extension) then Success(fileName + extension)
        else Failure(BadApiRequest(ExtensionMsg))
  }

  /**
   * `uploadImage` as evidently intended: a name without a dot is refused
   * like any other name without an allowed extension.
   */
  function UploadImageNameChecked(originalFilename: string, fileName: string): (r: Result<string, Exception>)
    ensures r.Failure? ==> r.error == BadApiRequest(EmptyImageMsg) || r.error == BadApiRequest(ExtensionMsg)
    ensures originalFilename == [] <==> r == Failure(BadApiRequest(EmptyImageMsg))
    ensures r.Success? ==> exists k :: 0 <= k < |originalFilename| && originalFilename[k] == '.'
                                      && r.value == fileName + originalFilename[k..]
                                      && AllowedExtension(originalFilename[k..])
  {
    if originalFilename != [] && '.' !in originalFilename then Failure(BadApiRequest(ExtensionMsg))
    else
      var r := UploadImageName(originalFilename, fileName);
      if r.Success? then
        var ext := Extension(originalFilename).value;
        assert originalFilename[|originalFilename| - |ext|..] == ext;
        r
      else r
  }

  /** The corrected upload differs from the written one exactly on non-empty names without a dot. */
  lemma CheckedDiffersOnlyOnDotlessNames(originalFilename: string, fileName: string)
    ensures (UploadImageNameChecked(originalFilename, fileName) != UploadImageName(originalFilename, fileName))
              <==> (originalFilename != [] && '.' !in originalFilename)
  {
  }

  /** A name without a dot escapes the refusal as `StringIndexOutOfBoundsException`. */
  lemma DotlessNameThrowsIndexError(fileName: string)
    ensures UploadImageName("photo", fileName) == Failure(StringIndexOutOfBounds(-1))
    ensures UploadImageNameChecked("photo", fileName) == Failure(BadApiRequest(ExtensionMsg))
  {
    assert 'p' == "photo"[0];
  }

  /** The last dot of `name` is at `k` when `name[k]` is a dot and no dot follows it. */
  lemma LastDotAt(name: string, k: nat)
    requires k < |name| && name[k] == '.'
    requires forall j :: k < j < |name| ==> name[j] != '.'
    ensures LastIndexOf(name, '.') == k
  {
  }

  /** An accepted extension is kept in the case it was given in. */
  lemma ExtensionKeepsItsCase(g: string)
    ensures UploadImageName("photo.PNG", g) == Success(g + ".PNG")
    ensures UploadImageName(".jpeg", g) == Success(g + ".jpeg")
  {
    LastDotAt("photo.PNG", 5);
    assert "photo.PNG"[5..] == ".PNG";
    assert EqualsIgnoreCase(".PNG", ".png");
    LastDotAt(".jpeg", 0);
  }

  /** Only the part from the last dot counts: the inner ".tar" is not the extension. */
  lemma OnlyTheLastDotCounts(g: string)
    ensures UploadImageName("archive.tar.jpg", g) == Success(g + ".jpg")
  {
    LastDotAt("archive.tar.jpg", 11);
    assert "archive.tar.jpg"[11..] == ".jpg";
  }

  /** An inner allowed extension does not rescue a name whose last extension is not allowed. */
  lemma InnerAllowedExtensionDoesNotHelp(g: string)
    ensures UploadImageName("photo.png.exe", g) == Failure(BadApiRequest(ExtensionMsg))
  {
    LastDotAt("photo.png.exe", 9);
    assert "photo.png.exe"[9..] == ".exe";
    assert !EqualsIgnoreCase(".exe", ".png") && !EqualsIgnoreCase(".exe", ".jpg");
  }

  /** Another image format is refused with the extension message. */
  lemma OtherFormatIsRefused(g: string)
    ensures UploadImageName("photo.gif", g) == Failure(BadApiRequest(ExtensionMsg))
  {
    LastDotAt("photo.gif", 5);
    assert "photo.gif"[5..] == ".gif";
    assert !EqualsIgnoreCase(".gif", ".png") && !EqualsIgnoreCase(".gif", ".jpg");
  }

  // ---------------------------------------------------------------------------
  // Paths

  /** Where `uploadImage` writes: the stored name appended to `path` with no separator in between. */
  function UploadTarget(path: string, storedName: string): (r: string)
    ensures |r| == |path| + |storedName| && r[..|path|] == path && r[|path|..] == storedName
  {
    path + storedName
  }

  /** Where `serveImage` reads: `path`, the platform's separator, then the name. */
  function ServePath(path: string, separator: string, fileName: string): (r: string)
    ensures |r| == |path| + |separator| + |fileName|
    ensures r[..|path|] == path && r[|path| + |separator|..] == fileName
  {
    path + separator + fileName
  }

  /**
   * The download reads the name under `path + separator`, the upload writes
   * it under `path` itself: the two paths are the same string only when
   * the separator is empty.
   */
  lemma ServeAndUploadPathsDiffer(path: string, separator: string, name: string)
    ensures ServePath(path, separator, name) == UploadTarget(path + separator, name)
    ensures ServePath(path, separator, name) == UploadTarget(path, name) <==> separator == []
  {
    assert path + separator + name == (path + separator) + name;
    if separator == [] {
      assert path + separator == path;
    }
  }
}
