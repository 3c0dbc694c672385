/** lib/storage.ts: the image check, the upload of a todo's image under a
    generated name, and the removal of an image given its public URL. `Date.now()`,
    the random suffix, URL parsing and every storage answer are parameters. */
module Storage {
  import opened Base
  import opened Text
  import opened BlobStore

  const AllowedTypes: seq<string> := ["image/jpeg", "image/jpg", "image/png", "image/gif", "image/webp"]
  const MaxSize: nat := 5 * 1024 * 1024
  const TypeRejected: string := "只支持 JPG、PNG、GIF、WebP 格式的图片"
  const SizeRejected: string := "图片大小不能超过 5MB"
  const DeleteFailed: string := "Failed to delete image"
  /** The message of the `TypeError` that `new URL` throws on a malformed URL;
      its wording varies between engines. */
  const InvalidUrl: string := "Invalid URL"

  /** `{ valid, error? }`. */
  datatype Validation = Validation(valid: bool, error: Option<string>)

  /** `validateImageFile`: the type is checked before the size, so a disallowed
      type is reported as such whatever the size; the size limit is inclusive. */
  function ValidateImageFile(file: File): (v: Validation)
    ensures v.valid <==> file.mimeType in AllowedTypes && file.size <= MaxSize
    ensures v.valid <==> v.error.None?
    ensures file.mimeType !in AllowedTypes ==> v.error == Some(TypeRejected)
    ensures file.mimeType in AllowedTypes && file.size > MaxSize ==> v.error == Some(SizeRejected)
  {
    if file.mimeType !in AllowedTypes then Validation(false, Some(TypeRejected))
    else if file.size > MaxSize then Validation(false, Some(SizeRejected))
    else Validation(true, None)
  }

  /** The five accepted types, `image/jpg` among them, and the 5 MiB edge: exactly
      5 MiB passes, one byte more fails. */
  lemma ValidationBoundaries(name: string, mimeType: string)
    ensures ValidateImageFile(File(name, mimeType, 5242880)).valid <==>
      mimeType in {"image/jpeg", "image/jpg", "image/png", "image/gif", "image/webp"}
    ensures !ValidateImageFile(File(name, mimeType, 5242881)).valid
  {
  }

  /** What the clock, the random generator and the store answer during one upload:
      `Date.now()`, `Math.random().toString(36).substring(2)`, the `listBuckets`
      error, the `upload` error and the public URL. */
  datatype UploadEnv = UploadEnv(
    now: nat,
    random: string,
    bucketsError: Option<string>,
    uploadError: Option<string>,
    publicUrl: string)

  /** `${Date.now()}-${random}.${fileExt}`. */
  function UploadFileName(name: string, now: nat, random: string): (r: string)
    ensures FileExtension(r) == FileExtension(name)
  {
    var r := Decimal(now) + "-" + random + "." + FileExtension(name);
    ExtensionAfterLastDot(Decimal(now) + "-" + random, FileExtension(name));
    r
  }

  /** `uploadImage`: an invalid file is rejected with the validation message before
      any storage call; otherwise the buckets are listed (a listing error aborts),
      the file goes to `userId/fileName` in the bucket (an upload error aborts),
      and the result is that object's public URL. */
  function UploadImage(file: File, userId: string, env: UploadEnv): (run: Run<string>)
    ensures var v := ValidateImageFile(file);
      !v.valid ==> run.calls == [] && run.result == Err(v.error.value)
    ensures run.result.Ok? <==>
      ValidateImageFile(file).valid && env.bucketsError.None? && env.uploadError.None?
    ensures run.result.Ok? ==> run.result.value == env.publicUrl
    ensures run.result.Ok? ==>
      var path := ObjectPath(userId, UploadFileName(file.name, env.now, env.random));
      run.calls == [ListBuckets, Upload(TodoBucket, path), GetPublicUrl(TodoBucket, path)]
    ensures ValidateImageFile(file).valid ==> |run.calls| >= 1 && run.calls[0] == ListBuckets
    ensures forall k :: 0 <= k < |run.calls| && run.calls[k].Upload? ==>
      run.calls[k] == Upload(TodoBucket, ObjectPath(userId, UploadFileName(file.name, env.now, env.random)))
    ensures ValidateImageFile(file).valid && env.bucketsError.Some? ==>
      run == Run([ListBuckets], Err("Storage service error: " + env.bucketsError.value))
    ensures ValidateImageFile(file).valid && env.bucketsError.None? && env.uploadError.Some? ==>
      run.calls == [ListBuckets, Upload(TodoBucket, ObjectPath(userId, UploadFileName(file.name, env.now, env.random)))]
      && run.result == Err("Upload failed: " + env.uploadError.value)
  {
    var v := ValidateImageFile(file);
    if !v.valid then Run([], Err(v.error.value))
    else
      var filePath := ObjectPath(userId, UploadFileName(file.name, env.now, env.random));
      if env.bucketsError.Some? then
        Run([ListBuckets], Err("Storage service error: " + env.bucketsError.value))
      else if env.uploadError.Some? then
        Run([ListBuckets, Upload(TodoBucket, filePath)], Err("Upload failed: " + env.uploadError.value))
      else
        Run([ListBuckets, Upload(TodoBucket, filePath), GetPublicUrl(TodoBucket, filePath)], Ok(env.publicUrl))
  }

  /** The key `deleteImage` derives: the user's folder and the last `/`-segment
      of the URL's path. */
  function DeleteKey(userId: string, pathname: string): (key: string)
    ensures |key| > |userId| && key[..|userId| + 1] == userId + "/"
    ensures '/' !in key[|userId| + 1..]
  {
    var key := ObjectPath(userId, Last(Split(pathname, '/')));
    assert key[|userId| + 1..] == Last(Split(pathname, '/'));
    key
  }

  /** `deleteImage`: `pathname` is what `new URL(imageUrl).pathname` gives, None
      when the URL does not parse (the constructor throws, nothing is removed).
      Otherwise one removal of the derived key is issued. */
  function DeleteImage(pathname: Option<string>, userId: string, removeError: Option<string>): (run: Run<()>)
    ensures pathname.None? ==> run == Run([], Err(InvalidUrl))
    ensures pathname.Some? ==> run.calls == [Remove(TodoBucket, [DeleteKey(userId, pathname.value)])]
    ensures run.result.Ok? <==> pathname.Some? && removeError.None?
    ensures pathname.Some? && removeError.Some? ==> run.result == Err(DeleteFailed)
  {
    match pathname
    case None => Run([], Err(InvalidUrl))
    case Some(p) =>
      Run([Remove(TodoBucket, [DeleteKey(userId, p)])],
        if removeError.Some? then Err(DeleteFailed) else Ok(()))
  }

  /** A generated file name holds no '/' when the random part and the original
      name hold none. */
  lemma UploadFileNameHasNoSlash(name: string, now: nat, random: string)
    requires '/' !in name && '/' !in random
    ensures '/' !in UploadFileName(name, now, random)
  {
    DecimalHasNoSeparators(now);
    ExtensionWithin(name, '/');
  }

  /** Deleting by a public URL whose path ends in the generated file name removes
      exactly the object the upload wrote, wherever the path starts. */
  lemma DeleteKeyMatchesUploadPath(prefix: string, userId: string, name: string, now: nat, random: string)
    requires '/' !in name && '/' !in random
    ensures var fileName := UploadFileName(name, now, random);
      DeleteKey(userId, prefix + "/" + fileName) == ObjectPath(userId, fileName)
  {
    var fileName := UploadFileName(name, now, random);
    UploadFileNameHasNoSlash(name, now, random);
    LastPieceAfterSeparator(prefix, fileName, '/');
  }
}
