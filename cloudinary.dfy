/**
 * The image-hosting helpers that do not talk to the network: upload
 * validation, recovering a public id from a delivery URL, reporting a batch
 * of deletions, and the cleaned file name a generated public id starts with.
 * The host's `destroy` call is a parameter.
 */
module Cloudinary {
  import opened Common
  import Strings
  import Tables

  // ---------------------------------------------------------------------
  // Upload validation
  // ---------------------------------------------------------------------

  /** What the upload middleware reports about one file. */
  datatype UploadedFile = UploadedFile(size: int, mimetype: string)

  const MaxFileSize: int := 10 * 1024 * 1024
  const MaxFiles: int := 10
  const AllowedMimeTypes: seq<string> :=
    ["image/jpeg", "image/jpg", "image/png", "image/gif", "image/webp", "image/svg+xml"]

  const FileTooLarge: string := "File size too large. Maximum size is 10MB."
  const NotAnImage: string := "Invalid file type. Only images are allowed."
  const TooManyFiles: string := "Too many files. Maximum 10 images allowed."

  /** `validateImageFile`: the size is checked before the type. */
  function ValidateImageFile(file: UploadedFile): (r: Result<bool>)
    ensures r.Ok? <==> file.size <= 10485760 && file.mimetype in AllowedMimeTypes
    ensures r.Ok? ==> r.value
    ensures file.size > 10485760 ==> r == Err(HttpError(BadRequest, FileTooLarge))
    ensures file.size <= 10485760 && file.mimetype !in AllowedMimeTypes ==> r == Err(HttpError(BadRequest, NotAnImage))
  {
    if file.size > MaxFileSize then Err(HttpError(BadRequest, FileTooLarge))
    else if file.mimetype !in AllowedMimeTypes then Err(HttpError(BadRequest, NotAnImage))
    else Ok(true)
  }

  /** `files.forEach(validateImageFile)`: the first file that fails stops the walk. */
  function ValidateEach(files: seq<UploadedFile>): (r: Result<bool>)
  {
    if files == [] then Ok(true)
    else match ValidateImageFile(files[0])
      case Err(e) => Err(e)
      case Ok(_) => ValidateEach(files[1..])
  }

  /** `validateImageFiles`: the count is checked before any file. */
  function ValidateImageFiles(files: seq<UploadedFile>): (r: Result<bool>)
  {
    if |files| > MaxFiles then Err(HttpError(BadRequest, TooManyFiles))
    else ValidateEach(files)
  }

  /** The walk accepts exactly when every file passes, and otherwise reports the first failure. */
  lemma {:induction false} ValidateEachFirstFailure(files: seq<UploadedFile>)
    ensures ValidateEach(files).Ok? <==> forall k :: 0 <= k < |files| ==> ValidateImageFile(files[k]).Ok?
    ensures ValidateEach(files).Err? ==>
              exists k :: 0 <= k < |files| && ValidateImageFile(files[k]) == ValidateEach(files)
                          && forall m :: 0 <= m < k ==> ValidateImageFile(files[m]).Ok?
  {
    if files != [] {
      ValidateEachFirstFailure(files[1..]);
      assert forall k :: 1 <= k < |files| ==> files[1..][k - 1] == files[k];
      if ValidateImageFile(files[0]).Ok? && ValidateEach(files[1..]).Err? {
        var k :| 0 <= k < |files[1..]| && ValidateImageFile(files[1..][k]) == ValidateEach(files[1..])
                 && forall m :: 0 <= m < k ==> ValidateImageFile(files[1..][m]).Ok?;
        assert ValidateImageFile(files[k + 1]) == ValidateEach(files);
        assert forall m :: 0 <= m < k + 1 ==> ValidateImageFile(files[m]).Ok? by {
          forall m | 0 <= m < k + 1 ensures ValidateImageFile(files[m]).Ok? {
            if m > 0 {
              assert files[m] == files[1..][m - 1];
            }
          }
        }
      }
    }
  }

  /** A batch is accepted exactly when it has at most ten files and every one of them passes. */
  lemma ValidateImageFilesIff(files: seq<UploadedFile>)
    ensures ValidateImageFiles(files).Ok? <==>
              |files| <= 10 && forall k :: 0 <= k < |files| ==> ValidateImageFile(files[k]).Ok?
    ensures |files| > 10 ==> ValidateImageFiles(files) == Err(HttpError(BadRequest, TooManyFiles))
  {
    ValidateEachFirstFailure(files);
  }

  // ---------------------------------------------------------------------
  // Public ids from delivery URLs
  // ---------------------------------------------------------------------

  const ImageExtensions: seq<string> := ["jpg", "jpeg", "png", "gif", "webp", "svg"]

  /** An image extension in any letter case, as the `i` flag matches it. */
  predicate IsImageExtension(ext: string)
  {
    Strings.ToLower(ext) in ImageExtensions
  }

  /** Image extensions hold no dot, slash or backslash. */
  lemma ImageExtensionPlain(ext: string)
    requires IsImageExtension(ext)
    ensures '.' !in ext && '/' !in ext && '\\' !in ext
  {
    var l := Strings.ToLower(ext);
    assert forall k :: 0 <= k < |l| ==> l[k] != '.' && l[k] != '/' && l[k] != '\\';
    forall k | 0 <= k < |ext|
      ensures ext[k] != '.' && ext[k] != '/' && ext[k] != '\\'
    {
      assert l[k] == Strings.ToLowerChar(ext[k]);
    }
  }

  /** A path segment the URL patterns accept: `[^\\/]+`. */
  predicate IsSegment(s: string)
  {
    s != "" && '/' !in s && '\\' !in s
  }

  /**
   * `([^\\/]+)\.(?:jpg|jpeg|png|gif|webp|svg)$` with the `i` flag, applied
   * to a last path segment: the name before the final dot, when what follows
   * that dot is an image extension in any letter case.
   */
  function ImageStem(last: string): (r: Option<string>)
    ensures r.Some? ==> IsSegment(r.value) || '/' in last
  {
    if '.' !in last then None
    else
      var i := Strings.LastIndexOf(last, '.');
      var stem := last[..i];
      if stem != "" && '\\' !in last && IsImageExtension(last[i + 1..]) then
        assert forall k :: 0 <= k < |stem| ==> stem[k] == last[k];
        Some(stem)
      else None
  }

  /**
   * `extractPublicId`: the last three segments of the path (without the
   * extension) when they are all non-empty and preceded by a slash, else the
   * last segment alone when a slash precedes it, else nothing. The optional
   * `v<digits>/` version segment of the first pattern never changes what is
   * captured.
   */
  function ExtractPublicId(url: string): (r: Option<string>)
    ensures r.Some? ==> r.value != ""
  {
    var parts := Strings.Split(url, '/');
    var n := |parts|;
    if n < 2 then None
    else match ImageStem(parts[n - 1])
      case None => None
      case Some(stem) =>
        if n >= 4 && IsSegment(parts[n - 3]) && IsSegment(parts[n - 2]) then
          Some(parts[n - 3] + "/" + parts[n - 2] + "/" + stem)
        else Some(stem)
  }

  lemma SingleSegmentSplit(s: string)
    requires '/' !in s
    ensures Strings.Split(s, '/') == [s]
  {
  }

  lemma {:induction false} StemOfImageName(stem: string, ext: string)
    requires IsSegment(stem) && IsImageExtension(ext)
    ensures ImageStem(stem + "." + ext) == Some(stem)
  {
    var last := stem + "." + ext;
    ImageExtensionPlain(ext);
    assert last[|stem|] == '.';
    var i := Strings.LastIndexOf(last, '.');
    assert last[..i] == stem;
    assert last[i + 1..] == ext;
  }

  /**
   * Round trip: a delivery URL whose path ends in `folder/sub/name.ext`
   * (any text before the folder, any version segment) yields the public id
   * `folder/sub/name`.
   */
  lemma {:induction false} ExtractThreeSegments(prefix: string, folder: string, sub: string, stem: string, ext: string)
    requires IsSegment(folder) && IsSegment(sub) && IsSegment(stem)
    requires IsImageExtension(ext)
    ensures ExtractPublicId(prefix + "/" + folder + "/" + sub + "/" + stem + "." + ext)
            == Some(folder + "/" + sub + "/" + stem)
  {
    var last := stem + "." + ext;
    ImageExtensionPlain(ext);
    assert '/' !in last;
    var url := prefix + "/" + folder + "/" + sub + "/" + stem + "." + ext;
    assert url == prefix + "/" + folder + "/" + sub + "/" + last;
    SplitThreeSegments(prefix, folder, sub, last);
    var parts := Strings.Split(url, '/');
    var n := |parts|;
    assert n >= 4 && parts[n - 1] == last && parts[n - 2] == sub && parts[n - 3] == folder;
    StemOfImageName(stem, ext);
  }

  lemma JoinThree(a: string, b: string, c: string)
    ensures Strings.Join([a, b, c], '/') == a + "/" + b + "/" + c
  {
    assert [a, b, c][1..] == [b, c];
    assert [b, c][1..] == [c];
    assert Strings.Join([c], '/') == c;
    assert Strings.Join([b, c], '/') == b + "/" + c;
  }

  lemma SplitThreeSegments(prefix: string, a: string, b: string, c: string)
    requires '/' !in a && '/' !in b && '/' !in c
    ensures Strings.Split(prefix + "/" + a + "/" + b + "/" + c, '/') == Strings.Split(prefix, '/') + [a, b, c]
  {
    var tail := a + "/" + b + "/" + c;
    assert prefix + "/" + a + "/" + b + "/" + c == prefix + ['/'] + tail;
    JoinThree(a, b, c);
    Strings.SplitJoin([a, b, c], '/');
    Strings.SplitAppend(prefix, '/', tail);
  }

  /** A file name directly under the host yields just that name. */
  lemma {:induction false} ExtractSingleSegment(host: string, stem: string, ext: string)
    requires '/' !in host && IsSegment(stem)
    requires IsImageExtension(ext)
    ensures ExtractPublicId(host + "/" + stem + "." + ext) == Some(stem)
  {
    var last := stem + "." + ext;
    ImageExtensionPlain(ext);
    assert '/' !in last;
    Strings.SplitAppend(host, '/', last);
    assert host + "/" + stem + "." + ext == host + ['/'] + last;
    SingleSegmentSplit(host);
    SingleSegmentSplit(last);
    StemOfImageName(stem, ext);
  }

  /** A URL whose last segment is not an image file name yields nothing. */
  lemma NotAnImageNoId(url: string)
    requires ImageStem(Strings.Split(url, '/')[|Strings.Split(url, '/')| - 1]).None?
    ensures ExtractPublicId(url) == None
  {
  }

  /** `xs.map(f).filter(x => x !== null)`: the present results, in order. */
  function Collect<T, U>(xs: seq<T>, f: T -> Option<U>): (ys: seq<U>)
    ensures |ys| <= |xs|
  {
    if xs == [] then [] else Present(f(xs[0])) + Collect(xs[1..], f)
  }

  function Present<U>(o: Option<U>): (ys: seq<U>)
    ensures |ys| <= 1
  {
    match o
    case None => []
    case Some(y) => [y]
  }

  lemma {:induction false} CollectMembers<T, U>(xs: seq<T>, f: T -> Option<U>, y: U)
    ensures y in Collect(xs, f) <==> exists k :: 0 <= k < |xs| && f(xs[k]) == Some(y)
  {
    if xs != [] {
      CollectMembers(xs[1..], f, y);
      assert forall k :: 1 <= k < |xs| ==> xs[1..][k - 1] == xs[k];
      if exists k :: 0 <= k < |xs| && f(xs[k]) == Some(y) {
        var k :| 0 <= k < |xs| && f(xs[k]) == Some(y);
        if k > 0 {
          assert f(xs[1..][k - 1]) == Some(y);
        }
      }
    }
  }

  lemma {:induction false} CollectAppend<T, U>(a: seq<T>, b: seq<T>, f: T -> Option<U>)
    ensures Collect(a + b, f) == Collect(a, f) + Collect(b, f)
  {
    if a == [] {
      assert a + b == b;
    } else {
      var head, rest := Present(f(a[0])), a[1..];
      assert (a + b)[0] == a[0];
      assert (a + b)[1..] == rest + b;
      assert Collect(a + b, f) == head + Collect(rest + b, f);
      CollectAppend(rest, b, f);
      assert Collect(a, f) == head + Collect(rest, f);
    }
  }

  /** `extractPublicIds`: the ids that could be extracted, in the order of the URLs. */
  function ExtractPublicIds(urls: seq<string>): (ids: seq<string>)
    ensures |ids| <= |urls|
    ensures forall id :: id in ids ==> id != ""
  {
    var ids := Collect(urls, ExtractPublicId);
    assert forall id :: id in ids ==> id != "" by {
      forall id | id in ids ensures id != "" {
        CollectMembers(urls, ExtractPublicId, id);
      }
    }
    ids
  }

  /** An id is listed exactly when some URL yields it. */
  lemma ExtractPublicIdsMembers(urls: seq<string>, id: string)
    ensures id in ExtractPublicIds(urls) <==> exists k :: 0 <= k < |urls| && ExtractPublicId(urls[k]) == Some(id)
  {
    CollectMembers(urls, ExtractPublicId, id);
  }

  /** Ids come out in the order of their URLs: extraction distributes over concatenation. */
  lemma ExtractPublicIdsAppend(a: seq<string>, b: seq<string>)
    ensures ExtractPublicIds(a + b) == ExtractPublicIds(a) + ExtractPublicIds(b)
    ensures ExtractPublicIds([]) == []
  {
    CollectAppend(a, b, ExtractPublicId);
  }

  // ---------------------------------------------------------------------
  // Batch deletion
  // ---------------------------------------------------------------------

  datatype DeleteReport = DeleteReport(success: seq<string>, failed: seq<string>)

  /**
   * `deleteMultipleImages`: every id is sent to `destroy`; the report
   * partitions the ids by its answer, each side in input order.
   */
  function DeleteMultipleImages(publicIds: seq<string>, destroy: string -> bool): (r: DeleteReport)
  {
    DeleteReport(Tables.Filter(publicIds, destroy), Tables.Filter(publicIds, id => !destroy(id)))
  }

  /** The report is a partition: each id lands on exactly the side its deletion result names. */
  lemma {:induction false} DeleteReportPartitions(publicIds: seq<string>, destroy: string -> bool)
    ensures var r := DeleteMultipleImages(publicIds, destroy);
            multiset(r.success) + multiset(r.failed) == multiset(publicIds)
            && (forall k :: 0 <= k < |r.success| ==> destroy(r.success[k]))
            && (forall k :: 0 <= k < |r.failed| ==> !destroy(r.failed[k]))
  {
    if publicIds != [] {
      var x, rest := publicIds[0], publicIds[1..];
      DeleteReportPartitions(rest, destroy);
      assert publicIds == [x] + rest;
    }
  }

  /**
   * `deleteImagesByUrls`: with no extractable id nothing is deleted and every
   * URL is reported as failed; otherwise the ids are deleted as a batch.
   */
  function DeleteImagesByUrls(urls: seq<string>, destroy: string -> bool): (r: DeleteReport)
  {
    var ids := ExtractPublicIds(urls);
    if |ids| == 0 then DeleteReport([], urls) else DeleteMultipleImages(ids, destroy)
  }

  /**
   * The report by URLs either fails every URL untouched (when none yields an
   * id) or partitions exactly the extracted ids; URLs that yield no id are
   * then left out of both sides.
   */
  lemma DeleteByUrlsReport(urls: seq<string>, destroy: string -> bool)
    ensures var r := DeleteImagesByUrls(urls, destroy);
            (ExtractPublicIds(urls) == [] ==> r.success == [] && r.failed == urls)
            && (ExtractPublicIds(urls) != [] ==>
                  multiset(r.success) + multiset(r.failed) == multiset(ExtractPublicIds(urls))
                  && forall k :: 0 <= k < |r.success| ==> destroy(r.success[k]))
  {
    DeleteReportPartitions(ExtractPublicIds(urls), destroy);
  }

  // ---------------------------------------------------------------------
  // Generated public ids
  // ---------------------------------------------------------------------

  /** `.replace(/\.[^/.]+$/, '')`: drop a final extension that holds no slash or dot. */
  function StripExtension(name: string): (r: string)
    ensures |r| <= |name| && r == name[..|r|]
  {
    if '.' !in name then name
    else
      var i := Strings.LastIndexOf(name, '.');
      if i + 1 < |name| && '/' !in name[i + 1..] then name[..i] else name
  }

  function CleanChar(c: char): (d: char)
  {
    if Strings.IsAlnum(c) then Strings.ToLowerChar(c) else '_'
  }

  /** `.replace(/[^a-zA-Z0-9]/g, '_').toLowerCase()`. */
  function Sanitize(s: string): (r: string)
    ensures |r| == |s|
    ensures forall k :: 0 <= k < |s| ==> r[k] == CleanChar(s[k])
  {
    if s == [] then "" else [CleanChar(s[0])] + Sanitize(s[1..])
  }

  /** Characters of a cleaned file name: lower-case letters, digits and underscores. */
  predicate IsCleanChar(c: char)
  {
    Strings.IsLower(c) || Strings.IsDigit(c) || c == '_'
  }

  /** The file-name part of `generatePublicId`. */
  function CleanFilename(name: string): (r: string)
    ensures |r| == |StripExtension(name)|
    ensures forall k :: 0 <= k < |r| ==> IsCleanChar(r[k])
  {
    Sanitize(StripExtension(name))
  }

  /** The extension goes and every other character is kept in place, cleaned. */
  lemma {:induction false} CleanDropsExtension(base: string, ext: string)
    requires ext != "" && '.' !in ext && '/' !in ext
    ensures CleanFilename(base + "." + ext) == Sanitize(base)
  {
    var name := base + "." + ext;
    assert name[|base|] == '.';
    var i := Strings.LastIndexOf(name, '.');
    assert name[..i] == base;
    assert name[i + 1..] == ext;
  }

  /** Cleaning a cleaned name changes nothing. */
  lemma CleanIdempotent(name: string)
    ensures CleanFilename(CleanFilename(name)) == CleanFilename(name)
  {
    var c := CleanFilename(name);
    assert '.' !in c;
    assert StripExtension(c) == c;
    assert Sanitize(c) == c;
  }

  /**
   * `generatePublicId`: the cleaned name, the clock reading and a random
   * suffix, joined by underscores (the clock and the suffix are parameters).
   */
  function GeneratePublicId(name: string, timestamp: nat, random: string): (id: string)
  {
    CleanFilename(name) + "_" + Strings.NatToString(timestamp) + "_" + random
  }

  /** The generated id starts with the cleaned name and ends with the timestamp and suffix. */
  lemma GeneratedIdShape(name: string, timestamp: nat, random: string)
    ensures var id := GeneratePublicId(name, timestamp, random);
            var c := CleanFilename(name);
            var t := Strings.NatToString(timestamp);
            id[..|c|] == c && id[|c|] == '_'
            && id[|c| + 1..|c| + 1 + |t|] == t && Strings.DigitsValue(t) == timestamp
            && id[|id| - |random|..] == random
  {
    Strings.DigitsValueOfNatToString(timestamp);
  }
}
