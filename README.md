# Todo list with realtime sync and image attachments — a Dafny model

This project models the client-side logic of a small todo web app built on Supabase:

- the realtime hook, which folds change-feed events (INSERT, UPDATE, DELETE, anything else) into the user's `Todo[]`;
- the todo component, whose handlers (add, toggle, delete, edit, cancel, image select) await library calls in order and only then write their React state;
- the two image helpers, with their type and size checks, the storage keys they generate and the keys they recover from public URLs;
- the write payloads the app sends to the `todos` table.

Every store, storage, clock and random answer is a parameter. A handler returns the effects it had outside its state, in order: library calls with their arguments, alerts and navigation. Ordering rules such as "image removed before the row" are stated over that sequence.

Modules, one per source file plus shared ones:

| module | file | models |
|---|---|---|
| `Base` | base.dfy | optional values, call results, the browser `File`, the user |
| `Text` | text.dfy | JavaScript `split`/`join`/`pop`/`findIndex`/`trim` and `${n}` for naturals |
| `TodoTypes` | types.dfy | the records of lib/types.ts |
| `TodoList` | todo_list.dfy | the `some`/`find`/`map`/`filter` by id shared by the hook and the component |
| `Realtime` | realtime.dfy | lib/use-realtime-todos.ts: pure event application plus the hook's state object |
| `TodoStore` | todos.dfy | lib/todos.ts: payloads, requests, reply-to-result |
| `BlobStore` | blob_store.dfy | the storage calls, the `my-todo` bucket, extension and per-user key idiom |
| `Storage` | storage.dfy | lib/storage.ts |
| `Upload` | upload.dfy | lib/upload.ts |
| `TodoComponent` | todo_app.dfy | components/todo-app.tsx as class `TodoApp` |

How the component updates its state:

- The component is not optimistic. It writes `todos` only after the remote call resolves, so a failed call leaves the list untouched and nothing is rolled back.
- The component keeps its own list and never uses `useRealtimeTodos`. The two are modelled as separate state objects.

Edge cases kept as written:

- `saveEdit` treats an `editingId` of 0 as "not editing", because 0 is falsy in JavaScript.
- `extractImagePath` returns `""` (not null) when the first `my-todo` segment is followed only by a trailing `/`. Only the first `my-todo` segment counts, so `/my-todo/my-todo/` gives `my-todo/`.
- lib/storage.ts accepts `image/jpg` and lib/upload.ts does not.
- The text sent to `createTodo` and `updateTodo` is untrimmed, even though blankness is checked on the trimmed text.

## Model

| member | source | states |
|---|---|---|
| `Text.Split` | lib/storage.ts:72 | `split` always yields at least one piece and no piece contains the separator |
| `Text.Last` | lib/storage.ts:73 | no contract of its own: the last piece of a split, as `pop()` and `[length - 1]` read it (also lib/storage.ts line 17 and lib/upload.ts line 28); `LastPieceAfterSeparator`, `ExtensionAfterLastDot` and `DeleteKeyMatchesUploadPath` say which piece that is |
| `Text.Join` | lib/upload.ts:77 | joining separator-free pieces puts exactly one separator between neighbours, so the result has one fewer separator than there are pieces |
| `Text.JoinSplit` | lib/upload.ts:74-77 | joining the pieces of a split with the same separator gives the original string back |
| `Text.SplitJoin` | lib/upload.ts:74-77 | splitting a join of separator-free pieces gives those pieces back |
| `Text.SplitAppend` | lib/storage.ts:72-73 | the split of `a + sep + b` is the split of `a` followed by the split of `b` |
| `Text.LastPieceAfterSeparator` | lib/storage.ts:72-73 | the last piece of `a + sep + b` is `b` when `b` has no separator |
| `Text.FindIndex` | lib/upload.ts:75 | -1 exactly when the element is absent; otherwise the index of its first occurrence |
| `Text.Trim` | components/todo-app.tsx:93 | the trimmed text (as at line 163 too) is `s` with a blank prefix and a blank suffix removed, and it neither starts nor ends with ECMAScript whitespace |
| `Text.TrimEmptyIffBlank` | components/todo-app.tsx:93 | `trim()` is empty exactly when every character is ECMAScript whitespace or a line terminator |
| `Text.Decimal` | lib/storage.ts:18 | the rendering of `Date.now()` is a non-empty string of digits, a single digit exactly below ten, with no leading zero |
| `Text.DecimalValue` | lib/storage.ts:18 | the digits denote the number rendered |
| `Base.Truthy` | lib/todos.ts:30 | no contract of its own: JavaScript truthiness of an optional string (present and non-empty), as also at components/todo-app.tsx lines 108 and 146; `InsertFields`, `InsertDropsEmptyImageUrl`, `AddTodoInput` and `HandleDeleteTodo` state what depends on it |
| `TodoList.HasId` | lib/use-realtime-todos.ts:73 | no contract of its own: `some` by id; `Find` (None exactly when it fails), `InsertEvent` and `CountInDistinct` state its meaning |
| `TodoList.Find` | components/todo-app.tsx:127 | `find` gives None exactly when no element has the id, else the first element that has it |
| `TodoList.ReplaceById` | lib/use-realtime-todos.ts:81-85 | same length; each element with the id becomes the new row, every other element is unchanged in place |
| `TodoList.RemoveById` | lib/use-realtime-todos.ts:90-92 | no element of the result has the id and every element comes from the input; an absent id leaves the list unchanged |
| `TodoList.KeptIndices` | lib/use-realtime-todos.ts:91 | the kept positions are increasing, in range, and exactly the positions whose id differs |
| `TodoList.RemoveKeepsOrder` | lib/use-realtime-todos.ts:90-92 | the filtered list is the original read at the kept positions, so relative order is preserved |
| `TodoList.RemovePreservesDistinct` | lib/use-realtime-todos.ts:90-92 | filtering keeps ids pairwise distinct |
| `TodoList.ReplaceKeepsIds` | lib/use-realtime-todos.ts:81-85 | replacing by the new row's own id keeps every position's id |
| `TodoList.CountInDistinct` | lib/use-realtime-todos.ts:73 | in a list with distinct ids an id occurs once if present and zero times otherwise |
| `Realtime.InsertEvent` | lib/use-realtime-todos.ts:69-77 | a duplicate INSERT leaves the list unchanged; a new one gives length + 1 with the row at index 0 and the old list after it; the id is listed afterwards |
| `Realtime.UpdateEvent` | lib/use-realtime-todos.ts:79-86 | UPDATE keeps length, order and ids; matching elements become the new row, others stay; an absent id changes nothing |
| `Realtime.RemoveCount` | lib/use-realtime-todos.ts:90-92 | the filter removes exactly as many elements as carry the id |
| `Realtime.DeleteEvent` | lib/use-realtime-todos.ts:88-93 | after DELETE no element has the old id, exactly the carriers are gone, the rest keep relative order; an absent id changes nothing |
| `Realtime.DeleteIdempotent` | lib/use-realtime-todos.ts:90-92 | applying the same DELETE twice equals applying it once |
| `Realtime.UnknownEventIgnored` | lib/use-realtime-todos.ts:95-96 | an unrecognised event type leaves the list unchanged |
| `Realtime.ChangePreservesDistinct` | lib/use-realtime-todos.ts:65-98 | every event keeps the ids pairwise distinct |
| `Realtime.InsertLeavesOneCopy` | lib/use-realtime-todos.ts:73-75 | after an INSERT into a distinct-id list exactly one element carries the inserted id |
| `Realtime.ApplyChange` | lib/use-realtime-todos.ts:68-97 | one event grows the list by at most one, and every row afterwards was listed before or is the event's new row; the per-event behaviour is stated by `InsertEvent`, `UpdateEvent`, `DeleteEvent`, `UnknownEventIgnored` and `ChangePreservesDistinct` |
| `Realtime.ApplyAll` | lib/use-realtime-todos.ts:36-39 | a stream of events delivered in order grows the list by at most one row per event, and every row afterwards was listed before or is the new row of one of the events |
| `Realtime.ApplyAllPreservesDistinct` | lib/use-realtime-todos.ts:36-39 | a whole stream of events delivered in order keeps ids distinct |
| `Realtime.RealtimeTodos.constructor` | lib/use-realtime-todos.ts:7-8 | the hook starts with an empty list and not loading |
| `Realtime.RealtimeTodos.LoadInitialTodos` | lib/use-realtime-todos.ts:51-63 | no user: nothing changes; otherwise the list becomes the fetched rows (kept on failure) and loading ends false |
| `Realtime.RealtimeTodos.UserChanged` | lib/use-realtime-todos.ts:12-18 | a null user resets the list to `[]`; a user triggers the initial load |
| `Realtime.RealtimeTodos.HandleRealtimeChange` | lib/use-realtime-todos.ts:65-98 | the new list is the event applied to the old one; distinct ids stay distinct; loading flag untouched |
| `Realtime.RealtimeTodos.UpdateLocalTodos` | lib/use-realtime-todos.ts:101-103 | the list becomes the updater applied to the old list |
| `TodoStore.InsertFields` | lib/todos.ts:27-31 | the insert always has `text` and `user_id`, and has `image_url` exactly when it is truthy |
| `TodoStore.UpdateFields` | lib/todos.ts:49-53 | the patch's keys are exactly the defined ones among `text`, `completed`, `image_url`, in that order, each carrying the given value (empty text included) |
| `TodoStore.GetTodos` | lib/todos.ts:5-19 | selects the rows newest first; rejects with "Failed to fetch todos" exactly on a store error; null data reads as `[]` |
| `TodoStore.CreateTodo` | lib/todos.ts:22-41 | inserts `InsertFields`; rejects exactly on a store error; otherwise resolves with the stored row |
| `TodoStore.UpdateTodo` | lib/todos.ts:44-64 | updates row `id` with `UpdateFields`; rejects exactly on a store error; otherwise resolves with the stored row |
| `TodoStore.DeleteTodo` | lib/todos.ts:67-79 | deletes row `id`; rejects with "Failed to delete todo" exactly on a store error |
| `TodoStore.ToggleTodo` | lib/todos.ts:82-84 | the toggle request is an update of row `id` whose patch is exactly `{ completed }`; it rejects exactly on a store error and otherwise resolves with the stored row |
| `TodoStore.InsertDropsEmptyImageUrl` | lib/todos.ts:30 | an empty-string image URL is omitted exactly as an undefined one |
| `BlobStore.FileExtension` | lib/storage.ts:17 | the extension contains no '.' |
| `BlobStore.ExtensionAfterLastDot` | lib/storage.ts:17 | the extension of `stem.ext` is `ext` when `ext` has no dot |
| `BlobStore.ExtensionWithoutDot` | lib/upload.ts:28 | a name without a dot is its own extension |
| `BlobStore.ObjectPath` | lib/storage.ts:19 | no contract of its own: the per-user key `${userId}/${fileName}`, as also at lib/upload.ts line 30; `DeleteKey`, `FilePath`, `DeleteKeyMatchesUploadPath` and `ExtractRecoversUploadPath` state its properties |
| `Storage.ValidateImageFile` | lib/storage.ts:87-106 | valid exactly when the type is one of the five listed and size ≤ 5 MiB; a bad type reports the type error whatever the size |
| `Storage.ValidationBoundaries` | lib/storage.ts:89-99 | at exactly 5 MiB the five types (with `image/jpg`) pass; at 5 MiB + 1 every file fails |
| `Storage.UploadFileName` | lib/storage.ts:17-18 | the generated file name keeps the original file's extension |
| `Storage.UploadImage` | lib/storage.ts:6-64 | an invalid file is rejected before any storage call; a listing error rejects after the listing alone, an upload error after listing and upload, with no URL request; success uploads to `userId/ts-rand.ext` and resolves with the public URL |
| `Storage.DeleteImage` | lib/storage.ts:67-84 | an unparsable URL removes nothing; otherwise removes `userId/` + last path segment, rejecting exactly on a removal error |
| `Storage.DeleteKey` | lib/storage.ts:72-74 | the delete key is `userId/` followed by one segment that holds no `/` |
| `Storage.DeleteKeyMatchesUploadPath` | lib/storage.ts:17-19 | for a URL path ending in the generated file name the delete key equals the uploaded path |
| `Upload.UploadTodoImage` | lib/upload.ts:13-54 | type then size checked before any call; success uploads to `userId/timestamp.ext` and returns that same path with the URL |
| `Upload.FilePath` | lib/upload.ts:27-30 | the object path starts with `userId/` and keeps the original file's extension |
| `Upload.UploadBoundaries` | lib/upload.ts:4-5 | at exactly 5 MiB only the four listed types pass; at 5 MiB + 1 the upload rejects |
| `Upload.JpgAcceptedOnlyByStorage` | lib/upload.ts:4 | `image/jpg` is valid for lib/storage.ts and rejected by lib/upload.ts at every allowed size |
| `Upload.DeleteTodoImage` | lib/upload.ts:57-68 | one removal of the given path; rejects exactly on a removal error |
| `Upload.ExtractImagePath` | lib/upload.ts:71-79 | a found path is a proper suffix of the pathname, and the pathname has a `my-todo` segment; when it is null and what it gives is stated by `ExtractNullIff`, `ExtractAfterBucket` and `ExtractRecoversUploadPath` |
| `Upload.ExtractNullIff` | lib/upload.ts:74-79 | null exactly when no segment is `my-todo` or the first such segment is the last one |
| `Upload.ExtractAfterBucket` | lib/upload.ts:74-77 | for `pre/my-todo/p` with no `my-todo` segment in `pre` the result is `p` |
| `Upload.ExtractRecoversUploadPath` | lib/upload.ts:27-30 | the path `uploadTodoImage` returns is recovered from a public path naming the bucket then that path |
| `TodoComponent.ImageStep` | components/todo-app.tsx:99-103 | no image gives no URL; a selected one succeeds exactly when its upload does, giving the public URL, and otherwise fails with the upload's own message |
| `TodoComponent.AddTodoInput` | components/todo-app.tsx:105-109 | `image_url` is passed exactly when the upload gave a truthy URL; the draft text is passed untrimmed |
| `TodoComponent.IsEditing` | components/todo-app.tsx:163 | no contract of its own: `!editingId` negated, so both null and 0 mean not editing; `SaveEdit` states the no-op on a falsy id |
| `TodoComponent.TodoApp.constructor` | components/todo-app.tsx:22-29 | initial component state |
| `TodoComponent.TodoApp.LoadTodos` | components/todo-app.tsx:39-52 | with a user, fetch; the list becomes the rows or is kept on failure; loading ends false |
| `TodoComponent.TodoApp.HandleImageSelect` | components/todo-app.tsx:55-70 | no file: nothing; an invalid file is alerted and not kept; a valid file becomes the selection |
| `TodoComponent.TodoApp.ClearSelectedImage` | components/todo-app.tsx:73-82 | the selection is cleared |
| `TodoComponent.TodoApp.AddTodo` | components/todo-app.tsx:84-122 | no user: only a redirect; blank draft: nothing; upload before create and a failed upload skips the create; success prepends the row and clears draft and image; failure changes no list |
| `TodoComponent.TodoApp.HandleToggleTodo` | components/todo-app.tsx:124-136 | missing id: no call; otherwise requests the negated flag and replaces the matching items only on success |
| `TodoComponent.TodoApp.HandleDeleteTodo` | components/todo-app.tsx:138-155 | a truthy image is removed first; if that fails the row delete is never issued; a successful delete removes exactly the items with the id |
| `TodoComponent.TodoApp.StartEditing` | components/todo-app.tsx:157-160 | editing starts on the item's id with its text |
| `TodoComponent.TodoApp.SaveEdit` | components/todo-app.tsx:162-178 | blank text, falsy id (null or 0) or no user: nothing; success replaces matching items and ends the edit; failure keeps everything |
| `TodoComponent.TodoApp.CancelEdit` | components/todo-app.tsx:180-183 | the edit id and text are cleared |

## Left out

- Supabase itself is not modelled: table queries, storage upload/remove/getPublicUrl, listBuckets, channels. Each call is a request value; its answer is a parameter.
- The realtime subscription lifecycle (lib/use-realtime-todos.ts:21-49) is left out. It only sets up and tears down the channel; the model applies each delivered payload through `HandleRealtimeChange`.
- The bucket-existence check after `listBuckets` (lib/storage.ts:30-36) is left out, since it only logs. The listing error, which does abort the upload, is modelled.
- `Date.now()` and `Math.random().toString(36).substring(2)` are opaque parameters. Uniqueness of generated names is not modelled.
- `new URL(...)` is not modelled. Callers pass the parsed pathname, or None where the constructor throws. `extractImagePath` takes the pathname, so its catch-to-null case (lib/upload.ts:80-82) is not modelled. The `TypeError` message on a bad URL is a placeholder constant, because engines word it differently.
- Rendering, the preview object URL, resetting the file input, `console` output and routing beyond the recorded `Navigate` effect are left out.
- `uploadingImage` and `isLoading` are modelled only as they are once a handler finishes, not while an await is pending.
- The inline `onChange` setters for the draft and edit text, and the Enter/Escape key bindings, are left out. They are plain field writes or calls to the modelled handlers.
- The fallback messages for non-`Error` throws ("Unknown upload error", lib/storage.ts:62; the add-todo fallback, components/todo-app.tsx:116) are not modelled: every modelled failure is an `Error` with a message.
- Async interleaving between handlers and feed events is not modelled. The component and the hook do not share state in these files.
- Each component handler is modelled as one atomic step. So the lost update when two handlers are in flight at once is not captured. Each of them writes a list built from the `todos` it saw when it started (components/todo-app.tsx:111, :132, :151, :170).
- Change-feed payloads are taken as an event type string, a full new row and the old row's id. Rows are trusted to have the `Todo` shape.
- components/image-upload.tsx, the pages, the auth buttons and types/database.ts are not part of this model.
