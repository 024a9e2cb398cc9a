/**
 * The records the client exchanges with the backend (the files under src/types).
 * They are plain data: no operation of their own.
 */
module Entities {
  import opened Wrappers

  datatype Role = Student | Teacher | Admin

  datatype User = User(
    id: int,
    email: string,
    firstName: string,
    lastName: string,
    middleName: string,
    role: Role,
    createdAt: string)

  datatype Material = Material(
    id: int,
    name: string,
    file: string,     // URL of the file
    theme: int,       // id of the owning theme
    order: int)

  datatype Theme = Theme(
    id: int,
    name: string,
    description: Option<string>,
    course: int,      // id of the owning course
    order: int,
    materials: seq<Material>,
    createdAt: string)

  datatype Course = Course(
    id: int,
    name: string,
    owner: User,
    students: seq<User>,
    themes: seq<Theme>,
    createdAt: Option<string>)

  /** The error body of a failed request; `fields` maps a field to its validation messages. */
  datatype ErrorData = ErrorData(message: string, fields: Option<map<string, seq<string>>>)

  /** A service call's outcome: either a result or an error, never both. */
  datatype Response<+T> = Ok(result: T) | Err(error: ErrorData)

  /** The paginated envelope of a list endpoint. */
  datatype BackendResponse<+T> = BackendResponse(
    count: int,
    next: Option<string>,
    previous: Option<string>,
    results: seq<T>)
}
