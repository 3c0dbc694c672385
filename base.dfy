/** Shared value types: the optional value, the thrown-or-returned result of an
    asynchronous call, and the two browser-side records the app passes around. */
module Base {

  /** `T | null` and `T | undefined`: None is the missing value. */
  datatype Option<+T> = None | Some(value: T)

  /** The outcome of an async call: it resolves with a value or rejects with an
      `Error` whose `message` the caller may show. */
  datatype Result<+T> = Ok(value: T) | Err(message: string)

  /** The browser `File` fields the app reads: `name`, `type` and `size` in bytes. */
  datatype File = File(name: string, mimeType: string, size: nat)

  /** JavaScript truthiness of an optional string: present and not empty. */
  predicate Truthy(s: Option<string>)
  {
    s.Some? && s.value != ""
  }

  /** The signed-in user handed to the component (`{ id: string }`). */
  datatype User = User(id: string)
}
