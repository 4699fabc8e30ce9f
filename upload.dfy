/**
 * The photo upload middleware: the file filter run before a file is stored,
 * the size limit applied while it streams in, the generated file name, and
 * the deletion of a stored photo from the uploads directory.
 */
module Upload {
  import opened Common
  import opened Text

  /** `5 * 1024 * 1024` bytes: both the filter's check and multer's `fileSize` limit. */
  const MaxPhotoBytes: int := 5 * 1024 * 1024

  const AllowedTypes: seq<string> := ["image/jpeg", "image/jpg", "image/png", "image/gif", "image/webp"]

  const NotAnImage := "Only image files are allowed."
  const TooLarge := "File too large. Maximum size is 5MB."
  const BadImageType := "Invalid file type. Only JPEG, PNG, GIF, and WebP images are allowed."

  datatype FilterDecision = Accept | Reject(message: string)

  /**
   * `fileFilter`: a non-image is refused first; an image whose size is known
   * and over the limit next; then an image outside the allow-list. A size of
   * 0 reads as "not known", like an absent one.
   */
  function FileFilter(mimetype: string, size: Option<int>): (r: FilterDecision)
    ensures r.Accept? <==> mimetype in AllowedTypes && !(size.Some? && size.value > MaxPhotoBytes)
    ensures !StartsWith(mimetype, "image/") ==> r == Reject(NotAnImage)
    ensures StartsWith(mimetype, "image/") && size.Some? && size.value > MaxPhotoBytes ==> r == Reject(TooLarge)
    ensures (StartsWith(mimetype, "image/") && !(size.Some? && size.value > MaxPhotoBytes) &&
             mimetype !in AllowedTypes) ==> r == Reject(BadImageType)
  {
    assert forall t :: t in AllowedTypes ==> StartsWith(t, "image/");
    if StartsWith(mimetype, "image/") then
      if size.Some? && size.value != 0 && size.value > MaxPhotoBytes then Reject(TooLarge)
      else if mimetype in AllowedTypes then Accept
      else Reject(BadImageType)
    else Reject(NotAnImage)
  }

  /**
   * The whole upload: the filter, then multer's `fileSize` limit on the bytes
   * actually received, which fails with multer's own message "File too large".
   */
  function UploadDecision(mimetype: string, declaredSize: Option<int>, bytes: nat): (r: FilterDecision)
    ensures r.Accept? <==> FileFilter(mimetype, declaredSize).Accept? && bytes <= MaxPhotoBytes
    ensures r.Accept? ==> mimetype in AllowedTypes
  {
    match FileFilter(mimetype, declaredSize)
    case Reject(m) => Reject(m)
    case Accept => if bytes > MaxPhotoBytes then Reject("File too large") else Accept
  }

  // ---------------------------------------------------------------- file names

  /**
   * `path.extname` (POSIX): the text from the last `.` of the last path
   * segment, trailing slashes ignored; empty when that segment has no dot,
   * starts with its only relevant dot, or is `..`.
   */
  function Extname(path: string): (r: string)
    ensures r == [] || (r[0] == '.' && '/' !in r)
    ensures |r| <= |path|
  {
    var base := LastSegment(TrimTrailingSlashes(path));
    var d := LastIndexOf(base, '.');
    if d <= 0 || base == ".." then ""
    else
      assert forall i :: d <= i < |base| ==> base[i] in base;
      base[d..]
  }

  /** A file name `stem.ext` (no slash, no dot in `ext`, not `..`) has extension `.ext`. */
  lemma ExtnameOfDottedName(stem: string, ext: string)
    requires stem != "" && '/' !in stem && '/' !in ext && '.' !in ext
    requires !(stem == "." && ext == "")
    ensures Extname(stem + "." + ext) == "." + ext
  {
    var name := stem + "." + ext;
    NoSlashInDotted(stem, ext);
    LastSegmentWholeName(name);
    LastIndexOfSplit(stem, ext);
    assert name[..|stem|] == stem;
    DropBefore(stem, '.', ext);
  }

  /** Joining two slash-free parts with a dot makes no slash. */
  lemma NoSlashInDotted(stem: string, ext: string)
    requires '/' !in stem && '/' !in ext
    ensures '/' !in stem + "." + ext
  {
  }

  /** A name with no dot and no slash has no extension. */
  lemma ExtnameUndotted(name: string)
    requires '/' !in name && '.' !in name
    ensures Extname(name) == ""
  {
    if name != [] {
      assert name[|name| - 1] in name;
    }
    LastSegmentWholeName(name);
  }

  /** A name whose only dot is its first character (`.profile`) has no extension. */
  lemma ExtnameLeadingDot(rest: string)
    requires '/' !in rest && '.' !in rest
    ensures Extname("." + rest) == ""
  {
    var name := "." + rest;
    assert name[1..] == rest;
    assert '/' !in name;
    assert name[|name| - 1] != '/' by {
      if rest != [] { assert name[|name| - 1] == rest[|rest| - 1]; assert rest[|rest| - 1] in rest; }
    }
    LastSegmentWholeName(name);
    assert LastIndexOf(name, '.') == 0;
  }

  lemma LastIndexOfSplit(stem: string, ext: string)
    requires '.' !in ext
    ensures LastIndexOf(stem + "." + ext, '.') == |stem|
  {
    assert stem + "." + ext == stem + ['.'] + ext;
    LastIndexOfJoin(stem, '.', ext);
  }

  /** With no slash anywhere, trimming trailing slashes and taking the last segment keep the name. */
  lemma LastSegmentWholeName(name: string)
    requires '/' !in name
    ensures TrimTrailingSlashes(name) == name
    ensures LastSegment(name) == name
  {
    if name != [] {
      assert name[|name| - 1] in name;
    }
    assert LastIndexOf(name, '/') == -1;
  }

  /** The unique part of a stored name: `Date.now() + '-' + Math.round(Math.random() * 1E9)`. */
  function UniqueSuffix(millis: nat, random: nat): string {
    NatToString(millis) + "-" + NatToString(random)
  }

  /** The stored file name: `employee-<suffix><extension of the original name>`. */
  function PhotoFilename(millis: nat, random: nat, originalName: string): (r: string)
    ensures StartsWith(r, "employee-")
    ensures '/' !in r
    ensures r == "employee-" + UniqueSuffix(millis, random) + Extname(originalName)
  {
    var suffix := UniqueSuffix(millis, random);
    var ext := Extname(originalName);
    assert forall i :: 0 <= i < |suffix| ==> suffix[i] != '/';
    var r := "employee-" + suffix + ext;
    assert r[..|"employee-"|] == "employee-";
    r
  }

  /** The photo URL stored for an upload, `/uploads/<filename>`. */
  function PhotoUrl(filename: string): string {
    "/uploads/" + filename
  }

  /**
   * The controllers find a photo's file by taking the URL's last segment;
   * for every generated name that is the name itself.
   */
  lemma PhotoUrlNamesItsFile(millis: nat, random: nat, originalName: string)
    ensures var f := PhotoFilename(millis, random, originalName);
            LastSegment(PhotoUrl(f)) == f && f != ""
  {
    var f := PhotoFilename(millis, random, originalName);
    LastSegmentAfterSlash("/uploads/", f);
  }

  // ---------------------------------------------------------------- deletion

  /** The uploads directory, as the set of file names it holds. */
  class UploadsDirectory {
    var files: set<string>

    constructor (files: set<string>)
      ensures this.files == files
    {
      this.files := files;
    }
  }

  /**
   * `deletePhoto`: an empty name does nothing; otherwise the file, if
   * present, leaves the uploads directory. Failures are swallowed, so this
   * never fails.
   */
  method DeletePhoto(dir: UploadsDirectory, filename: string)
    modifies dir
    ensures filename == "" ==> dir.files == old(dir.files)
    ensures filename != "" ==> dir.files == old(dir.files) - {filename}
  {
    if filename == "" {
      return;
    }
    if filename in dir.files {
      dir.files := dir.files - {filename};
    }
  }
}
