/** The records of lib/types.ts. */
module TodoTypes {
  import opened Base

  /** A row of the `todos` table; `imageUrl` is the optional `image_url`. */
  datatype Todo = Todo(
    id: int,
    userId: string,
    text: string,
    completed: bool,
    imageUrl: Option<string>,
    createdAt: string,
    updatedAt: string)

  /** The argument of `createTodo`. */
  datatype CreateTodoInput = CreateTodoInput(text: string, userId: string, imageUrl: Option<string>)

  /** The argument of `updateTodo`: every field but the id may be `undefined`. */
  datatype UpdateTodoInput = UpdateTodoInput(
    id: int,
    text: Option<string>,
    completed: Option<bool>,
    imageUrl: Option<string>)
}
