/** components/todo-app.tsx: the todo list component. Its state is a handful of
    React state cells; each handler awaits the library calls in order and only
    then writes the state, so a failed call leaves the list as it was. A handler
    receives the answers of the calls it may make as parameters and returns the
    effects it had outside its state, in order. */
module TodoComponent {
  import opened Base
  import opened Text
  import opened TodoTypes
  import opened TodoList
  import TodoStore
  import Storage

  const SignInPath: string := "/sign-in"

  /** What a handler does outside the component state: a navigation, an alert,
      or a call into lib/todos.ts or lib/storage.ts with its arguments. */
  datatype Effect =
    | Navigate(path: string)
    | Alert(message: string)
    | GetTodosCall
    | UploadImageCall(file: File, userId: string)
    | CreateTodoCall(data: CreateTodoInput)
    | ToggleTodoCall(id: int, completed: bool)
    | DeleteImageCall(imageUrl: string, userId: string)
    | DeleteTodoCall(id: int)
    | UpdateTodoCall(patch: UpdateTodoInput)

  /** JavaScript truthiness of `editingId`: null and 0 are both falsy. */
  predicate IsEditing(editingId: Option<int>)
  {
    editingId.Some? && editingId.value != 0
  }

  /** The optional first step of `addTodo`: no image selected gives no URL;
      a selected image is uploaded and gives its public URL, or the upload's error. */
  function ImageStep(selected: Option<File>, userId: string, env: Storage.UploadEnv): (r: Result<Option<string>>)
    ensures selected.None? ==> r == Ok(None)
    ensures selected.Some? ==>
      (r.Ok? <==> Storage.UploadImage(selected.value, userId, env).result.Ok?)
    ensures selected.Some? && r.Ok? ==> r.value == Some(env.publicUrl)
    ensures selected.Some? && r.Err? ==>
      r.message == Storage.UploadImage(selected.value, userId, env).result.message
  {
    match selected
    case None => Ok(None)
    case Some(file) =>
      match Storage.UploadImage(file, userId, env).result
      case Ok(url) => Ok(Some(url))
      case Err(message) => Err(message)
  }

  /** The `createTodo` argument of `addTodo`: the draft text as typed (not
      trimmed), the user, and `image_url` only when the upload gave a truthy URL. */
  function AddTodoInput(text: string, userId: string, imageUrl: Option<string>): (data: CreateTodoInput)
    ensures data.text == text && data.userId == userId
    ensures data.imageUrl.Some? <==> Truthy(imageUrl)
    ensures data.imageUrl.Some? ==> data.imageUrl == imageUrl
  {
    CreateTodoInput(text, userId, if Truthy(imageUrl) then imageUrl else None)
  }

  class TodoApp {
    var todos: seq<Todo>
    var newTodo: string
    var editingId: Option<int>
    var editText: string
    var isLoading: bool
    var selectedImage: Option<File>
    var uploadingImage: bool

    /** The initial state of every `useState`. */
    constructor ()
      ensures todos == [] && newTodo == "" && editingId == None && editText == ""
      ensures !isLoading && selectedImage == None && !uploadingImage
    {
      todos, newTodo, editingId, editText := [], "", None, "";
      isLoading, selectedImage, uploadingImage := false, None, false;
    }

    /** `loadTodos`: with a user, fetch the list; a failed fetch keeps the old one. */
    method LoadTodos(user: Option<User>, fetched: TodoStore.Reply<Option<seq<Todo>>>) returns (effects: seq<Effect>)
      modifies this`todos, this`isLoading
      ensures user.None? ==> effects == [] && todos == old(todos) && isLoading == old(isLoading)
      ensures user.Some? ==> effects == [GetTodosCall] && !isLoading
      ensures user.Some? ==>
        todos == (var c := TodoStore.GetTodos(fetched); if c.result.Ok? then c.result.value else old(todos))
    {
      if user.None? {
        return [];
      }
      isLoading := true;
      effects := [GetTodosCall];
      var c := TodoStore.GetTodos(fetched);
      if c.result.Ok? {
        todos := c.result.value;
      }
      isLoading := false;
    }

    /** `handleImageSelect`: no file does nothing; a file that fails
        `validateImageFile` is reported and not kept; a valid one is selected. */
    method HandleImageSelect(file: Option<File>) returns (effects: seq<Effect>)
      modifies this`selectedImage
      ensures file.None? ==> effects == [] && selectedImage == old(selectedImage)
      ensures file.Some? && !Storage.ValidateImageFile(file.value).valid ==>
        effects == [Alert(Storage.ValidateImageFile(file.value).error.value)]
        && selectedImage == old(selectedImage)
      ensures file.Some? && Storage.ValidateImageFile(file.value).valid ==>
        effects == [] && selectedImage == file
    {
      if file.None? {
        return [];
      }
      var validation := Storage.ValidateImageFile(file.value);
      if !validation.valid {
        return [Alert(validation.error.value)];
      }
      selectedImage := file;
      effects := [];
    }

    /** `clearSelectedImage`. */
    method ClearSelectedImage()
      modifies this`selectedImage
      ensures selectedImage == None
    {
      selectedImage := None;
    }

    /** `addTodo`. With no user it only redirects to the sign-in page; with a
        whitespace-only draft it does nothing. Otherwise a selected image is
        uploaded first, and a failed upload is reported and skips the create.
        The create gets `image_url` only for a truthy URL. Only a successful
        create changes the list: the new row goes to index 0 and the draft and
        the selected image are cleared. Both busy flags end cleared. */
    method AddTodo(user: Option<User>, env: Storage.UploadEnv, created: TodoStore.Reply<Todo>)
      returns (effects: seq<Effect>)
      modifies this`todos, this`newTodo, this`selectedImage, this`isLoading, this`uploadingImage
      ensures user.None? || IsBlank(old(newTodo)) ==>
        && effects == (if user.None? then [Navigate(SignInPath)] else [])
        && todos == old(todos) && newTodo == old(newTodo) && selectedImage == old(selectedImage)
        && isLoading == old(isLoading) && uploadingImage == old(uploadingImage)
      ensures user.Some? && !IsBlank(old(newTodo)) ==>
        var step := ImageStep(old(selectedImage), user.value.id, env);
        var uploads := if old(selectedImage).Some? then [UploadImageCall(old(selectedImage).value, user.value.id)] else [];
        && !isLoading && !uploadingImage
        && (step.Err? ==>
              effects == uploads + [Alert(step.message)]
              && todos == old(todos) && newTodo == old(newTodo) && selectedImage == old(selectedImage))
        && (step.Ok? ==>
              var data := AddTodoInput(old(newTodo), user.value.id, step.value);
              && (created.Data? ==>
                    effects == uploads + [CreateTodoCall(data)]
                    && todos == [created.data] + old(todos) && newTodo == "" && selectedImage == None)
              && (created.Failed? ==>
                    effects == uploads + [CreateTodoCall(data), Alert(TodoStore.CreateFailed)]
                    && todos == old(todos) && newTodo == old(newTodo) && selectedImage == old(selectedImage)))
    {
      if user.None? {
        return [Navigate(SignInPath)];
      }
      TrimEmptyIffBlank(newTodo);
      if Trim(newTodo) == "" {
        return [];
      }
      var userId := user.value.id;
      isLoading := true;
      effects := [];
      if selectedImage.Some? {
        uploadingImage := true;
        effects := effects + [UploadImageCall(selectedImage.value, userId)];
      }
      var step := ImageStep(selectedImage, userId, env);
      if step.Err? {
        effects := effects + [Alert(step.message)];
      } else {
        var data := AddTodoInput(newTodo, userId, step.value);
        effects := effects + [CreateTodoCall(data)];
        var c := TodoStore.CreateTodo(data, created);
        if c.result.Ok? {
          todos := [c.result.value] + todos;
          newTodo := "";
          selectedImage := None;
        } else {
          effects := effects + [Alert(c.result.message)];
        }
      }
      isLoading := false;
      uploadingImage := false;
    }

    /** `handleToggleTodo`: with no user or no such id no call is made; otherwise
        the opposite of the first matching item's flag is requested, and only a
        successful reply replaces the items with that id. */
    method HandleToggleTodo(user: Option<User>, id: int, reply: TodoStore.Reply<Todo>) returns (effects: seq<Effect>)
      modifies this`todos
      ensures user.None? || !HasId(old(todos), id) ==> effects == [] && todos == old(todos)
      ensures user.Some? && HasId(old(todos), id) ==>
        && effects == [ToggleTodoCall(id, !Find(old(todos), id).value.completed)]
        && todos == (if reply.Data? then ReplaceById(old(todos), id, reply.data) else old(todos))
    {
      if user.None? {
        return [];
      }
      var todo := Find(todos, id);
      if todo.None? {
        return [];
      }
      effects := [ToggleTodoCall(id, !todo.value.completed)];
      var c := TodoStore.ToggleTodo(id, !todo.value.completed, reply);
      if c.result.Ok? {
        todos := ReplaceById(todos, id, c.result.value);
      }
    }

    /** `handleDeleteTodo`: an item with a truthy `image_url` has its image removed
        first, and if that fails (the URL does not parse, or the removal is
        refused) the row delete is never issued and the item stays. Only a
        successful row delete removes the items with that id. `pathnameOf` stands
        for `new URL(url).pathname`, None where the constructor throws. */
    method HandleDeleteTodo(user: Option<User>, id: int, pathnameOf: string -> Option<string>,
                            removeError: Option<string>, deleted: TodoStore.Reply<()>)
      returns (effects: seq<Effect>)
      modifies this`todos
      ensures user.None? || !HasId(old(todos), id) ==> effects == [] && todos == old(todos)
      ensures user.Some? && HasId(old(todos), id) ==>
        var todo := Find(old(todos), id).value;
        var hasImage := Truthy(todo.imageUrl);
        var imageGone := !hasImage ||
          Storage.DeleteImage(pathnameOf(todo.imageUrl.value), user.value.id, removeError).result.Ok?;
        var imageCall := if hasImage then [DeleteImageCall(todo.imageUrl.value, user.value.id)] else [];
        && effects == imageCall + (if imageGone then [DeleteTodoCall(id)] else [])
        && todos == (if imageGone && deleted.Data? then RemoveById(old(todos), id) else old(todos))
    {
      if user.None? {
        return [];
      }
      var todo := Find(todos, id);
      if todo.None? {
        return [];
      }
      var t := todo.value;
      effects := [];
      if Truthy(t.imageUrl) {
        effects := [DeleteImageCall(t.imageUrl.value, user.value.id)];
        var run := Storage.DeleteImage(pathnameOf(t.imageUrl.value), user.value.id, removeError);
        if run.result.Err? {
          return;
        }
      }
      effects := effects + [DeleteTodoCall(id)];
      var c := TodoStore.DeleteTodo(id, deleted);
      if c.result.Ok? {
        todos := RemoveById(todos, id);
      }
    }

    /** `startEditing`. */
    method StartEditing(todo: Todo)
      modifies this`editingId, this`editText
      ensures editingId == Some(todo.id) && editText == todo.text
    {
      editingId := Some(todo.id);
      editText := todo.text;
    }

    /** `saveEdit`: nothing happens for a whitespace-only text, a falsy
        `editingId` (null or 0) or no user. Otherwise only the text is sent, as
        typed; a successful reply replaces the items with that id and ends the
        edit, a failed one keeps the list and the edit open. */
    method SaveEdit(user: Option<User>, reply: TodoStore.Reply<Todo>) returns (effects: seq<Effect>)
      modifies this`todos, this`editingId, this`editText
      ensures IsBlank(old(editText)) || !IsEditing(old(editingId)) || user.None? ==>
        effects == [] && todos == old(todos) && editingId == old(editingId) && editText == old(editText)
      ensures !IsBlank(old(editText)) && IsEditing(old(editingId)) && user.Some? ==>
        var id := old(editingId).value;
        && effects == [UpdateTodoCall(UpdateTodoInput(id, Some(old(editText)), None, None))]
        && (reply.Data? ==> todos == ReplaceById(old(todos), id, reply.data) && editingId == None && editText == "")
        && (reply.Failed? ==> todos == old(todos) && editingId == old(editingId) && editText == old(editText))
    {
      TrimEmptyIffBlank(editText);
      if Trim(editText) == "" || !IsEditing(editingId) || user.None? {
        return [];
      }
      var id := editingId.value;
      var data := UpdateTodoInput(id, Some(editText), None, None);
      effects := [UpdateTodoCall(data)];
      var c := TodoStore.UpdateTodo(data, reply);
      if c.result.Ok? {
        todos := ReplaceById(todos, id, c.result.value);
        editingId := None;
        editText := "";
      }
    }

    /** `cancelEdit`. */
    method CancelEdit()
      modifies this`editingId, this`editText
      ensures editingId == None && editText == ""
    {
      editingId := None;
      editText := "";
    }
  }
}
