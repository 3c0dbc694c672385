/** lib/upload.ts: a second image uploader with its own type list and naming,
    its remover, and the recovery of an object path from a public URL's path. */
module Upload {
  import opened Base
  import opened Text
  import opened BlobStore
  import Storage

  const AllowedImageTypes: seq<string> := ["image/jpeg", "image/png", "image/gif", "image/webp"]
  const MaxFileSize: nat := 5 * 1024 * 1024
  const TypeRejected: string := "只支持上传 JPEG、PNG、GIF、WebP 格式的图片"
  const SizeRejected: string := "图片大小不能超过 5MB"

  /** `{ url, path }`. */
  datatype UploadResult = UploadResult(url: string, path: string)

  /** `Date.now()`, the `upload` error and the public URL of one upload. */
  datatype UploadEnv = UploadEnv(timestamp: nat, uploadError: Option<string>, publicUrl: string)

  /** `${userId}/${timestamp}.${fileExt}`. */
  function FilePath(userId: string, name: string, timestamp: nat): (path: string)
    ensures |path| > |userId| && path[..|userId| + 1] == userId + "/"
    ensures FileExtension(path) == FileExtension(name)
  {
    var path := ObjectPath(userId, Decimal(timestamp) + "." + FileExtension(name));
    assert path == (userId + "/" + Decimal(timestamp)) + "." + FileExtension(name);
    ExtensionAfterLastDot(userId + "/" + Decimal(timestamp), FileExtension(name));
    path
  }

  /** `uploadTodoImage`: the type is checked, then the size, both before any
      storage call; an accepted file is uploaded to `FilePath` and the result
      carries that same path beside the public URL. */
  function UploadTodoImage(file: File, userId: string, env: UploadEnv): (run: Run<UploadResult>)
    ensures file.mimeType !in AllowedImageTypes ==> run == Run([], Err(TypeRejected))
    ensures file.mimeType in AllowedImageTypes && file.size > MaxFileSize ==> run == Run([], Err(SizeRejected))
    ensures run.result.Ok? <==>
      file.mimeType in AllowedImageTypes && file.size <= MaxFileSize && env.uploadError.None?
    ensures run.result.Ok? ==>
      var path := FilePath(userId, file.name, env.timestamp);
      && run.result.value == UploadResult(env.publicUrl, path)
      && run.calls == [Upload(TodoBucket, path), GetPublicUrl(TodoBucket, path)]
    ensures file.mimeType in AllowedImageTypes && file.size <= MaxFileSize && env.uploadError.Some? ==>
      run == Run([Upload(TodoBucket, FilePath(userId, file.name, env.timestamp))],
                 Err("上传失败: " + env.uploadError.value))
  {
    if file.mimeType !in AllowedImageTypes then Run([], Err(TypeRejected))
    else if file.size > MaxFileSize then Run([], Err(SizeRejected))
    else
      var filePath := FilePath(userId, file.name, env.timestamp);
      if env.uploadError.Some? then
        Run([Upload(TodoBucket, filePath)], Err("上传失败: " + env.uploadError.value))
      else
        Run([Upload(TodoBucket, filePath), GetPublicUrl(TodoBucket, filePath)],
          Ok(UploadResult(env.publicUrl, filePath)))
  }

  /** Exactly four types pass, and the 5 MiB limit is inclusive. */
  lemma UploadBoundaries(name: string, mimeType: string, userId: string, env: UploadEnv)
    requires env.uploadError.None?
    ensures UploadTodoImage(File(name, mimeType, 5242880), userId, env).result.Ok? <==>
      mimeType in {"image/jpeg", "image/png", "image/gif", "image/webp"}
    ensures UploadTodoImage(File(name, mimeType, 5242881), userId, env).result.Err?
  {
  }

  /** The two uploaders disagree on `image/jpg`: lib/storage.ts accepts it and
      lib/upload.ts rejects it, at every size. */
  lemma JpgAcceptedOnlyByStorage(name: string, size: nat, userId: string, env: UploadEnv)
    requires size <= Storage.MaxSize
    ensures Storage.ValidateImageFile(File(name, "image/jpg", size)).valid
    ensures UploadTodoImage(File(name, "image/jpg", size), userId, env) == Run([], Err(TypeRejected))
  {
  }

  /** `deleteTodoImage`: one removal of the given path. */
  function DeleteTodoImage(imagePath: string, removeError: Option<string>): (run: Run<()>)
    ensures run.calls == [Remove(TodoBucket, [imagePath])]
    ensures run.result.Ok? <==> removeError.None?
    ensures removeError.Some? ==> run.result == Err("删除图片失败: " + removeError.value)
  {
    Run([Remove(TodoBucket, [imagePath])],
      if removeError.Some? then Err("删除图片失败: " + removeError.value) else Ok(()))
  }

  /** `extractImagePath` on the URL's `pathname`: the segments after the first
      `my-todo` segment, joined by '/', or null when there is none after it. */
  function ExtractImagePath(pathname: string): (r: Option<string>)
    ensures r.Some? ==> TodoBucket in Split(pathname, '/')
    ensures r.Some? ==>
      |r.value| < |pathname| && pathname[|pathname| - |r.value|..] == r.value
  {
    var parts := Split(pathname, '/');
    var bucketIndex := FindIndex(parts, TodoBucket);
    if bucketIndex != -1 && bucketIndex < |parts| - 1 then
      JoinSplitSuffix(pathname, '/', bucketIndex + 1);
      Some(Join(parts[bucketIndex + 1..], '/'))
    else
      None
  }

  /** Null exactly when no segment is `my-todo`, or when the first one is the last segment. */
  lemma ExtractNullIff(pathname: string)
    ensures var parts := Split(pathname, '/');
      ExtractImagePath(pathname).None? <==>
        (TodoBucket !in parts
         || (parts[|parts| - 1] == TodoBucket && TodoBucket !in parts[..|parts| - 1]))
  {
    var parts := Split(pathname, '/');
    var i := FindIndex(parts, TodoBucket);
    if i == |parts| - 1 {
      assert parts[..i] == parts[..|parts| - 1];
    }
  }

  /** For a path `pre/my-todo/p` whose `pre` has no `my-todo` segment the result
      is `p`, whatever `p` holds. */
  lemma ExtractAfterBucket(pre: string, p: string)
    requires TodoBucket !in Split(pre, '/')
    ensures ExtractImagePath(pre + "/" + TodoBucket + "/" + p) == Some(p)
  {
    var m := TodoBucket;
    var pathname := pre + "/" + m + "/" + p;
    assert '/' !in m;
    SplitAround(pre, m, p, '/');
    var head, tail := Split(pre, '/'), Split(p, '/');
    var parts := head + [m] + tail;
    assert Split(pathname, '/') == parts;
    FindIndexAfter(head, m, tail);
    assert parts[|head| + 1..] == tail;
    JoinSplit(p, '/');
  }

  /** The path `uploadTodoImage` returns is what `extractImagePath` recovers from
      a public URL path that names the bucket and then that path. */
  lemma ExtractRecoversUploadPath(pre: string, userId: string, name: string, timestamp: nat)
    requires TodoBucket !in Split(pre, '/')
    ensures ExtractImagePath(pre + "/" + TodoBucket + "/" + FilePath(userId, name, timestamp))
      == Some(FilePath(userId, name, timestamp))
  {
    ExtractAfterBucket(pre, FilePath(userId, name, timestamp));
  }
}
