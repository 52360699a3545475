/**
 * The record shapes of the server (backend/models.py): users, to-dos, the
 * create / update / read views of a to-do and the token answer of a login.
 */
module Models {
  import opened Wrappers

  /** A stored user. `username` and `email` are both declared unique; `fullName` is optional. */
  datatype User = User(id: int, username: string, email: string, fullName: Option<string>,
                       hashedPassword: string)

  /** The signup body: the user fields plus the plaintext password. */
  datatype UserCreate = UserCreate(username: string, email: string, fullName: Option<string>,
                                   password: string)

  /** A stored to-do row; `id` is the primary key and `ownerId` points at a user. */
  datatype Todo = Todo(id: int, title: string, description: Option<string>, completed: bool,
                       ownerId: int)

  /** The create body: the to-do fields without `id` or `ownerId`. */
  datatype TodoCreate = TodoCreate(title: string, description: Option<string>, completed: bool)

  /**
   * One field of a partial update. A field absent from the request body is `Unset`;
   * a field present in it is `Set`, and its value may be an explicit null.
   */
  datatype Field<T> = Unset | Set(value: T)

  /**
   * The patch body. Every field is optional and defaults to "not given"; there is no
   * `id` or `ownerId` field, so a patch cannot reassign a row's identity or owner.
   */
  datatype TodoUpdate = TodoUpdate(title: Field<Option<string>>,
                                   description: Field<Option<string>>,
                                   completed: Field<Option<bool>>)

  /** What a to-do read answers: always an integer `id` and `ownerId`. */
  datatype TodoRead = TodoRead(id: int, title: string, description: Option<string>,
                               completed: bool, ownerId: int)

  /** The login answer. */
  datatype Token = Token(accessToken: string, tokenType: string)

  /** A create body that gives only a title, so every other field takes its declared default. */
  function TitleOnly(title: string): TodoCreate
  {
    TodoCreate(title, None, false)
  }

  /** A patch body that gives no field at all. */
  function EmptyUpdate(): TodoUpdate
  {
    TodoUpdate(Unset, Unset, Unset)
  }

  /** The read view of a stored row. */
  function AsRead(t: Todo): TodoRead
  {
    TodoRead(t.id, t.title, t.description, t.completed, t.ownerId)
  }
}
