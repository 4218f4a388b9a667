/**
 * `DownloadService.downloadAndSave`: stream one photo from its URL into
 * `<root>/<folder>/<title>-<id>.<extension>`, unless a file of that name is already there.
 * The web is a function from URL to stream; the disk is a `Disk` object whose files,
 * directories and stream events the operation updates in place.
 */
module DownloadService {
  import opened Wrappers
  import opened Enumeration

  /** The characters of the folder-name pattern `[\/:"*?<>|]`; the backslash is not among them. */
  predicate IsForbidden(c: char)
  {
    c == '/' || c == ':' || c == '"' || c == '*' || c == '?' || c == '<' || c == '>' || c == '|'
  }

  function Replacement(c: char): char
  {
    if IsForbidden(c) then '_' else c
  }

  /** `foldername.replaceAll("[\\/:\"*?<>|]", "_")`. */
  function Sanitize(s: string): (r: string)
    ensures |r| == |s|
    ensures forall i :: 0 <= i < |r| ==> !IsForbidden(r[i])
  {
    seq(|s|, i requires 0 <= i < |s| => Replacement(s[i]))
  }

  /** Every other character, the backslash included, is kept; each forbidden one becomes `_`. */
  lemma SanitizeReplacesOnlyForbidden(s: string)
    ensures forall i :: 0 <= i < |s| && !IsForbidden(s[i]) ==> Sanitize(s)[i] == s[i]
    ensures forall i :: 0 <= i < |s| && IsForbidden(s[i]) ==> Sanitize(s)[i] == '_'
  {
  }

  /** A folder name that is already clean is left as it is, so sanitizing twice changes nothing. */
  lemma SanitizeIdempotent(s: string)
    ensures (forall i :: 0 <= i < |s| ==> !IsForbidden(s[i])) ==> Sanitize(s) == s
    ensures Sanitize(Sanitize(s)) == Sanitize(s)
  {
  }

  /** `String.lastIndexOf(c)`, with `None` for -1. */
  function LastIndex(s: string, c: char): (r: Option<nat>)
    ensures r.None? <==> c !in s
    ensures r.Some? ==> r.value < |s| && s[r.value] == c && c !in s[r.value + 1..]
  {
    if |s| == 0 then None
    else if s[|s| - 1] == c then Some(|s| - 1)
    else
      var r := LastIndex(s[..|s| - 1], c);
      assert s == s[..|s| - 1] + [s[|s| - 1]];
      r
  }

  /** The separator placed in front of a tail free of it is the last one. */
  lemma {:induction false} LastIndexBefore(a: string, c: char, b: string)
    requires c !in b
    ensures LastIndex(a + [c] + b, c) == Some(|a|)
  {
    var s := a + [c] + b;
    assert s[|a|] == c;
    assert s[|a| + 1..] == b;
  }

  /**
   * Spring's `StringUtils.getFilenameExtension`: the text after the last `.`, or null when
   * there is no `.` or a `/` follows the last one.
   */
  function FilenameExtension(path: string): Option<string>
  {
    match LastIndex(path, '.')
    case None => None
    case Some(dot) =>
      match LastIndex(path, '/')
      case Some(slash) => if slash > dot then None else Some(path[dot + 1..])
      case None => Some(path[dot + 1..])
  }

  /**
   * The extension is the tail behind a `.` that holds neither `.` nor `/`; it is absent exactly
   * when no `.` is followed by a `/`-free tail.
   */
  lemma ExtensionShape(path: string)
    ensures FilenameExtension(path).Some? ==>
      var e := FilenameExtension(path).value;
      |e| < |path| && path[|path| - |e| - 1] == '.' && path[|path| - |e|..] == e && '.' !in e && '/' !in e
    ensures FilenameExtension(path).None? <==> !exists k :: 0 <= k < |path| && path[k] == '.' && '/' !in path[k + 1..]
  {
    match LastIndex(path, '.')
    case None =>
    case Some(dot) =>
      match LastIndex(path, '/')
      case None =>
      case Some(slash) =>
        if slash > dot {
          forall k | 0 <= k < |path| && path[k] == '.'
            ensures '/' in path[k + 1..]
          {
            assert path[k + 1..][slash - k - 1] == '/';
          }
        } else {
          assert slash != dot;
        }
  }

  /** `MessageFormat.format("{4}/{0}/{1}-{2}.{3}", sanitized folder, filename, id, extension, root)`. */
  function TargetPath(root: string, folder: string, filename: string, id: string, imageUrl: string): string
  {
    root + "/" + Sanitize(folder) + "/" + filename + "-" + id + "." + FormatNullable(FilenameExtension(imageUrl))
  }

  /** `File.getParentFile()`: everything before the last `/`, null when there is none. */
  function ParentOf(path: string): (r: Option<string>)
    ensures r.Some? ==> |r.value| < |path| && path[..|r.value|] == r.value && path[|r.value|] == '/'
    ensures r.None? <==> '/' !in path
  {
    match LastIndex(path, '/')
    case None => None
    case Some(i) => Some(path[..i])
  }

  /**
   * When neither the title nor the id holds a `/`, the file lands directly in the sanitized
   * folder under the root.
   */
  lemma TargetPathParent(root: string, folder: string, filename: string, id: string, imageUrl: string)
    requires '/' !in filename && '/' !in id
    ensures ParentOf(TargetPath(root, folder, filename, id, imageUrl)) == Some(root + "/" + Sanitize(folder))
  {
    var ext := FormatNullable(FilenameExtension(imageUrl));
    ExtensionShape(imageUrl);
    var dir := root + "/" + Sanitize(folder);
    var name := filename + "-" + id + "." + ext;
    assert TargetPath(root, folder, filename, id, imageUrl) == dir + "/" + name;
    ParentOfJoin(dir, name);
  }

  /** A path joined from a directory and a name without `/` has that directory as parent. */
  lemma ParentOfJoin(dir: string, name: string)
    requires '/' !in name
    ensures ParentOf(dir + "/" + name) == Some(dir)
  {
    LastIndexBefore(dir, '/', name);
    assert (dir + "/" + name)[..|dir|] == dir;
  }

  /** Every target has a parent, so `getParentFile().mkdirs()` never sees null. */
  lemma TargetPathHasParent(root: string, folder: string, filename: string, id: string, imageUrl: string)
    ensures ParentOf(TargetPath(root, folder, filename, id, imageUrl)).Some?
  {
    assert TargetPath(root, folder, filename, id, imageUrl)[|root|] == '/';
  }

  /** A Flickr photo id: decimal digits only. */
  predicate IsPhotoId(id: string)
  {
    forall i :: 0 <= i < |id| ==> '0' <= id[i] <= '9'
  }

  /** The id part of a target file name: the text between the last `-` and the last `.`. */
  function IdOf(path: string): Option<string>
  {
    match LastIndex(path, '.')
    case None => None
    case Some(dot) =>
      match LastIndex(path[..dot], '-')
      case None => None
      case Some(dash) => Some(path[dash + 1..dot])
  }

  /** The extension written into a target name never holds a `.`. */
  lemma WrittenExtensionHasNoDot(imageUrl: string)
    ensures '.' !in FormatNullable(FilenameExtension(imageUrl))
  {
    ExtensionShape(imageUrl);
  }

  /** The photo id can be read back from its target path, whatever the root, set, title and URL. */
  lemma TargetPathId(root: string, folder: string, filename: string, id: string, imageUrl: string)
    requires IsPhotoId(id)
    ensures IdOf(TargetPath(root, folder, filename, id, imageUrl)) == Some(id)
  {
    var head := root + "/" + Sanitize(folder) + "/" + filename;
    var ext := FormatNullable(FilenameExtension(imageUrl));
    var path := TargetPath(root, folder, filename, id, imageUrl);
    assert '.' !in id && '-' !in id;
    WrittenExtensionHasNoDot(imageUrl);
    assert path == (head + "-" + id) + ['.'] + ext;
    LastIndexBefore(head + "-" + id, '.', ext);
    var dot := |head| + 1 + |id|;
    assert path[..dot] == head + ['-'] + id;
    LastIndexBefore(head, '-', id);
    assert path[..dot][|head| + 1..] == id;
  }

  /**
   * Photos with different ids never share a target file, even when their roots, sets, titles
   * and image URLs differ.
   */
  lemma DistinctIdsDistinctPaths(root1: string, folder1: string, filename1: string, id1: string, imageUrl1: string,
                                 root2: string, folder2: string, filename2: string, id2: string, imageUrl2: string)
    requires IsPhotoId(id1) && IsPhotoId(id2) && id1 != id2
    ensures TargetPath(root1, folder1, filename1, id1, imageUrl1) != TargetPath(root2, folder2, filename2, id2, imageUrl2)
  {
    TargetPathId(root1, folder1, filename1, id1, imageUrl1);
    TargetPathId(root2, folder2, filename2, id2, imageUrl2);
  }

  /** The bytes behind an image URL; `failsAfter` is how many of them arrive before the connection breaks. */
  datatype Stream = Stream(bytes: seq<bv8>, failsAfter: Option<nat>)

  datatype IoEvent = Opened(url: string) | Closed(url: string)

  /** What leaves `downloadAndSave`. */
  datatype Thrown = RuntimeError | NullPointer

  datatype DownloadOutcome = Saved | Skipped | Failed(thrown: Thrown)

  /** The bytes a copy leaves behind: all of them, or those before the break. */
  function Written(stream: Stream): seq<bv8>
  {
    match stream.failsAfter
    case None => stream.bytes
    case Some(k) => if k < |stream.bytes| then stream.bytes[..k] else stream.bytes
  }

  /** The local disk: regular files with their contents, directories, and the stream events. */
  class Disk {
    var files: map<string, seq<bv8>>
    var dirs: set<string>
    var io: seq<IoEvent>

    constructor (files: map<string, seq<bv8>>, dirs: set<string>)
      ensures this.files == files && this.dirs == dirs && io == []
    {
      this.files := files;
      this.dirs := dirs;
      io := [];
    }

    /** `File.exists()`: a file or a directory of that name. */
    predicate Exists(path: string)
      reads this
    {
      path in files || path in dirs
    }

    method Open(url: string)
      modifies this
      ensures io == old(io) + [Opened(url)]
      ensures files == old(files) && dirs == old(dirs)
    {
      io := io + [Opened(url)];
    }

    /** `IOUtils.closeQuietly(is)`. */
    method Close(url: string)
      modifies this
      ensures io == old(io) + [Closed(url)]
      ensures files == old(files) && dirs == old(dirs)
    {
      io := io + [Closed(url)];
    }

    /** `File.mkdirs()`: quietly does nothing when a regular file holds the name. */
    method MakeDirs(path: string)
      modifies this
      ensures dirs == if path in old(files) then old(dirs) else old(dirs) + {path}
      ensures files == old(files) && io == old(io)
    {
      if path !in files {
        dirs := dirs + {path};
      }
    }

    /**
     * `Files.copy(is, target, REPLACE_EXISTING)`: fails without writing when the parent
     * directory is missing; a broken stream leaves the bytes read so far in the file.
     */
    method Copy(stream: Stream, target: string) returns (ok: bool)
      modifies this
      ensures var parent := ParentOf(target);
        ok <==> parent.Some? && parent.value in old(dirs) && stream.failsAfter.None?
      ensures var parent := ParentOf(target);
        files == if parent.Some? && parent.value in old(dirs) then old(files)[target := Written(stream)] else old(files)
      ensures dirs == old(dirs) && io == old(io)
    {
      var parent := ParentOf(target);
      if parent.None? || parent.value !in dirs {
        return false;
      }
      files := files[target := Written(stream)];
      ok := stream.failsAfter.None?;
    }

    /** `File.delete()` of a regular file. */
    method Delete(path: string)
      modifies this
      ensures files == old(files) - {path}
      ensures dirs == old(dirs) && io == old(io)
    {
      files := files - {path};
    }
  }

  /**
   * The part of `downloadAndSave` after the stream is open: create the parent, skip an
   * existing target, copy, delete the target again on failure, close the stream.
   */
  method SaveStream(disk: Disk, stream: Stream, imageUrl: string, target: string, parent: string) returns (r: DownloadOutcome)
    requires ParentOf(target) == Some(parent)
    modifies disk
    ensures disk.io == old(disk.io) + [Closed(imageUrl)]
    ensures disk.dirs == if parent in old(disk.files) then old(disk.dirs) else old(disk.dirs) + {parent}
    ensures target in old(disk.files) || target in disk.dirs ==> r == Skipped && disk.files == old(disk.files)
    ensures target !in old(disk.files) && target !in disk.dirs ==>
      if parent in disk.dirs && stream.failsAfter.None? then
        r == Saved && disk.files == old(disk.files)[target := stream.bytes]
      else
        r == Failed(RuntimeError) && disk.files == old(disk.files)
  {
    disk.MakeDirs(parent);
    if disk.Exists(target) {
      disk.Close(imageUrl);
      return Skipped;
    }
    var ok := disk.Copy(stream, target);
    if ok {
      r := Saved;
    } else {
      disk.Delete(target);
      assert disk.files == old(disk.files);
      r := Failed(RuntimeError);
    }
    disk.Close(imageUrl);
  }

  /**
   * `downloadAndSave` as written. When the URL is malformed or cannot be opened the target
   * is still null, and the catch block's `targetFile.delete()` throws a NullPointerException
   * instead of the wrapped error; the disk is untouched.
   */
  method DownloadAndSave(disk: Disk, web: string -> Option<Stream>, root: string,
                         imageUrl: string, filename: string, folder: string, id: string)
    returns (r: DownloadOutcome)
    modifies disk
    ensures web(imageUrl).None? ==>
      r == Failed(NullPointer) && disk.files == old(disk.files) && disk.dirs == old(disk.dirs) && disk.io == old(disk.io)
    ensures web(imageUrl).Some? ==>
      var target := TargetPath(root, folder, filename, id, imageUrl);
      var stream := web(imageUrl).value;
      var parent := ParentOf(target);
      disk.io == old(disk.io) + [Opened(imageUrl), Closed(imageUrl)] &&
      parent.Some? &&
      disk.dirs == (if parent.value in old(disk.files) then old(disk.dirs) else old(disk.dirs) + {parent.value}) &&
      (target in old(disk.files) || target in disk.dirs ==> r == Skipped && disk.files == old(disk.files)) &&
      (target !in old(disk.files) && target !in disk.dirs ==>
        if parent.value in disk.dirs && stream.failsAfter.None? then
          r == Saved && disk.files == old(disk.files)[target := stream.bytes]
        else
          r == Failed(RuntimeError) && disk.files == old(disk.files))
  {
    var response := web(imageUrl);
    if response.None? {
      return Failed(NullPointer);
    }
    disk.Open(imageUrl);
    var target := TargetPath(root, folder, filename, id, imageUrl);
    TargetPathHasParent(root, folder, filename, id, imageUrl);
    r := SaveStream(disk, response.value, imageUrl, target, ParentOf(target).value);
  }

  /** `downloadAndSave` with the delete guarded by a null check: every failure is the wrapped error. */
  method DownloadAndSaveGuarded(disk: Disk, web: string -> Option<Stream>, root: string,
                                imageUrl: string, filename: string, folder: string, id: string)
    returns (r: DownloadOutcome)
    modifies disk
    ensures web(imageUrl).None? ==>
      r == Failed(RuntimeError) && disk.files == old(disk.files) && disk.dirs == old(disk.dirs) && disk.io == old(disk.io)
    ensures web(imageUrl).Some? ==>
      var target := TargetPath(root, folder, filename, id, imageUrl);
      var stream := web(imageUrl).value;
      var parent := ParentOf(target);
      disk.io == old(disk.io) + [Opened(imageUrl), Closed(imageUrl)] &&
      parent.Some? &&
      disk.dirs == (if parent.value in old(disk.files) then old(disk.dirs) else old(disk.dirs) + {parent.value}) &&
      (target in old(disk.files) || target in disk.dirs ==> r == Skipped && disk.files == old(disk.files)) &&
      (target !in old(disk.files) && target !in disk.dirs ==>
        if parent.value in disk.dirs && stream.failsAfter.None? then
          r == Saved && disk.files == old(disk.files)[target := stream.bytes]
        else
          r == Failed(RuntimeError) && disk.files == old(disk.files))
    ensures r != Failed(NullPointer)
  {
    var response := web(imageUrl);
    if response.None? {
      return Failed(RuntimeError);
    }
    disk.Open(imageUrl);
    var target := TargetPath(root, folder, filename, id, imageUrl);
    TargetPathHasParent(root, folder, filename, id, imageUrl);
    r := SaveStream(disk, response.value, imageUrl, target, ParentOf(target).value);
  }
}
