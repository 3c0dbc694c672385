/** The parts of the object store the app uses (Supabase Storage): the calls it
    issues, and the object-naming idiom that storage.ts and upload.ts share. The
    store itself is external; its answers are parameters. */
module BlobStore {
  import opened Base
  import opened Text

  /** The one bucket both files use. */
  const TodoBucket: string := "my-todo"

  /** A call on `supabase.storage`. */
  datatype StorageCall =
    | ListBuckets
    | Upload(bucket: string, path: string)
    | GetPublicUrl(bucket: string, path: string)
    | Remove(bucket: string, paths: seq<string>)

  /** What an async storage helper did: the calls it issued, in order, and how it settled. */
  datatype Run<T> = Run(calls: seq<StorageCall>, result: Result<T>)

  /** `name.split('.').pop()`: the text after the last '.', or the whole name. */
  function FileExtension(name: string): (ext: string)
    ensures '.' !in ext
  {
    Last(Split(name, '.'))
  }

  /** The extension is what follows the last dot. */
  lemma ExtensionAfterLastDot(stem: string, ext: string)
    requires '.' !in ext
    ensures FileExtension(stem + "." + ext) == ext
  {
    LastPieceAfterSeparator(stem, ext, '.');
  }

  /** A name without a dot is its own extension. */
  lemma ExtensionWithoutDot(name: string)
    requires '.' !in name
    ensures FileExtension(name) == name
  {
    SplitWithoutSeparator(name, '.');
  }

  /** The extension holds no character the name lacks. */
  lemma ExtensionWithin(name: string, ch: char)
    requires ch !in name
    ensures ch !in FileExtension(name)
  {
    SplitPiecesWithin(name, '.', ch);
  }

  /** `${userId}/${fileName}`: the per-user object key. */
  function ObjectPath(userId: string, fileName: string): string
  {
    userId + "/" + fileName
  }
}
