/** lib/todos.ts: the write payloads the app sends to the `todos` table and how
    each store reply becomes a resolved value or a thrown error. The store itself
    is external: its reply is a parameter. */
module TodoStore {
  import opened Base
  import opened TodoTypes

  /** A column value inside a write payload. */
  datatype Value = Text(s: string) | Flag(b: bool)

  /** An object literal, as its key/value entries in the order they are written. */
  type Fields = seq<(string, Value)>

  function Keys(f: Fields): (keys: seq<string>)
    ensures |keys| == |f| && forall i :: 0 <= i < |f| ==> keys[i] == f[i].0
  {
    seq(|f|, i requires 0 <= i < |f| => f[i].0)
  }

  /** The spread `...(present && { key: value })`: one entry, or none. */
  function Entry(present: bool, key: string, value: Value): Fields
  {
    if present then [(key, value)] else []
  }

  /** The query the app sends to the store. */
  datatype Request =
    | SelectAllNewestFirst        // select('*') ordered by created_at, descending
    | InsertOne(row: Fields)      // insert([row]).select().single()
    | UpdateById(id: int, patch: Fields)
    | DeleteById(id: int)

  /** The `{ data, error }` the store answers with: data, or a non-null error. */
  datatype Reply<T> = Data(data: T) | Failed(error: string)

  /** One store operation: the request it issued and how it settled. */
  datatype Call<T> = Call(request: Request, result: Result<T>)

  const FetchFailed: string := "Failed to fetch todos"
  const CreateFailed: string := "Failed to create todo"
  const UpdateFailed: string := "Failed to update todo"
  const DeleteFailed: string := "Failed to delete todo"

  /** The row `createTodo` inserts: `text` and `user_id` always, `image_url` only
      when the given URL is truthy, so an empty string is dropped. */
  function InsertFields(data: CreateTodoInput): (row: Fields)
    ensures |row| >= 2 && row[0] == ("text", Text(data.text)) && row[1] == ("user_id", Text(data.userId))
    ensures "image_url" in Keys(row) <==> Truthy(data.imageUrl)
    ensures |row| == if Truthy(data.imageUrl) then 3 else 2
    ensures Truthy(data.imageUrl) ==> row[2] == ("image_url", Text(data.imageUrl.value))
  {
    var row := [("text", Text(data.text)), ("user_id", Text(data.userId))]
      + Entry(Truthy(data.imageUrl), "image_url", Text(if data.imageUrl.Some? then data.imageUrl.value else ""));
    assert Keys(row) == ["text", "user_id"] + (if Truthy(data.imageUrl) then ["image_url"] else []);
    assert "image_url" != "text" && "image_url" != "user_id";
    row
  }

  /** The patch `updateTodo` sends: each of `text`, `completed` and `image_url`
      exactly when that field is not `undefined`, with the given value. An empty
      text or URL is still sent. */
  function UpdateFields(data: UpdateTodoInput): (patch: Fields)
    ensures "text" in Keys(patch) <==> data.text.Some?
    ensures "completed" in Keys(patch) <==> data.completed.Some?
    ensures "image_url" in Keys(patch) <==> data.imageUrl.Some?
    ensures data.text.Some? ==> ("text", Text(data.text.value)) in patch
    ensures data.completed.Some? ==> ("completed", Flag(data.completed.value)) in patch
    ensures data.imageUrl.Some? ==> ("image_url", Text(data.imageUrl.value)) in patch
    ensures Keys(patch) == (if data.text.Some? then ["text"] else [])
      + (if data.completed.Some? then ["completed"] else [])
      + (if data.imageUrl.Some? then ["image_url"] else [])
    ensures |patch| <= 3
  {
    var t := Entry(data.text.Some?, "text", Text(if data.text.Some? then data.text.value else ""));
    var c := Entry(data.completed.Some?, "completed", Flag(data.completed.Some? && data.completed.value));
    var u := Entry(data.imageUrl.Some?, "image_url", Text(if data.imageUrl.Some? then data.imageUrl.value else ""));
    var patch := t + c + u;
    assert Keys(patch) == (if data.text.Some? then ["text"] else [])
      + (if data.completed.Some? then ["completed"] else [])
      + (if data.imageUrl.Some? then ["image_url"] else []);
    assert "text" != "completed" && "text" != "image_url" && "completed" != "image_url";
    patch
  }

  /** `getTodos`: the user's rows newest first; a null `data` reads as `[]`. */
  function GetTodos(reply: Reply<Option<seq<Todo>>>): (c: Call<seq<Todo>>)
    ensures c.request == SelectAllNewestFirst
    ensures c.result.Err? <==> reply.Failed?
    ensures reply.Failed? ==> c.result.message == FetchFailed
    ensures reply.Data? ==> c.result.value == (if reply.data.Some? then reply.data.value else [])
  {
    Call(SelectAllNewestFirst,
      match reply
      case Failed(_) => Err(FetchFailed)
      case Data(data) => Ok(if data.Some? then data.value else []))
  }

  /** `createTodo`: inserts `InsertFields(data)` and resolves with the stored row. */
  function CreateTodo(data: CreateTodoInput, reply: Reply<Todo>): (c: Call<Todo>)
    ensures c.request == InsertOne(InsertFields(data))
    ensures c.result.Err? <==> reply.Failed?
    ensures reply.Failed? ==> c.result.message == CreateFailed
    ensures reply.Data? ==> c.result.value == reply.data
  {
    Call(InsertOne(InsertFields(data)),
      match reply
      case Failed(_) => Err(CreateFailed)
      case Data(row) => Ok(row))
  }

  /** `updateTodo`: patches the row `data.id` and resolves with the stored row. */
  function UpdateTodo(data: UpdateTodoInput, reply: Reply<Todo>): (c: Call<Todo>)
    ensures c.request == UpdateById(data.id, UpdateFields(data))
    ensures c.result.Err? <==> reply.Failed?
    ensures reply.Failed? ==> c.result.message == UpdateFailed
    ensures reply.Data? ==> c.result.value == reply.data
  {
    Call(UpdateById(data.id, UpdateFields(data)),
      match reply
      case Failed(_) => Err(UpdateFailed)
      case Data(row) => Ok(row))
  }

  /** `deleteTodo`: deletes the row `id`; resolves with no value. */
  function DeleteTodo(id: int, reply: Reply<()>): (c: Call<()>)
    ensures c.request == DeleteById(id)
    ensures c.result.Err? <==> reply.Failed?
    ensures reply.Failed? ==> c.result.message == DeleteFailed
  {
    Call(DeleteById(id),
      match reply
      case Failed(_) => Err(DeleteFailed)
      case Data(_) => Ok(()))
  }

  /** `toggleTodo` delegates to `updateTodo` with only `completed` given. */
  function ToggleTodo(id: int, completed: bool, reply: Reply<Todo>): (c: Call<Todo>)
    ensures c.request == UpdateById(id, [("completed", Flag(completed))])
    ensures c.result.Err? <==> reply.Failed?
    ensures reply.Data? ==> c.result == Ok(reply.data)
  {
    UpdateTodo(UpdateTodoInput(id, None, Some(completed), None), reply)
  }

  /** An insert never carries an empty image URL, and carries a non-empty one verbatim. */
  lemma InsertDropsEmptyImageUrl(text: string, userId: string)
    ensures InsertFields(CreateTodoInput(text, userId, Some(""))) == InsertFields(CreateTodoInput(text, userId, None))
    ensures InsertFields(CreateTodoInput(text, userId, None)) == [("text", Text(text)), ("user_id", Text(userId))]
  {
  }
}
