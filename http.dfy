/** The JSON responses the handlers send: a status code and a body. */
module Http {
  import opened Crypto
  import opened Db

  datatype Body =
    | ErrorBody(error: string)                   // { error }
    | UserCreated(message: string, userId: int)  // { message: "User created", userId }
    | TokenIssued(token: string)                 // { token }
    | TokenValid(message: string, user: Claims)  // { message: "Token is valid", user }
    | TaskBody(task: Task)                       // one task row
    | TaskList(tasks: seq<Task>)                 // an array of task rows
    | Confirmation(message: string)              // { message: "Task deleted" }

  datatype Response = Response(status: int, body: Body)

  const MissingCredentials := Response(400, ErrorBody("Username and password required"))
  const UserExists := Response(400, ErrorBody("User already exists"))
  const InvalidCredentials := Response(400, ErrorBody("Invalid credentials"))
  const NoToken := Response(401, ErrorBody("No token provided"))
  const InvalidToken := Response(403, ErrorBody("Invalid token"))
  const TitleRequired := Response(400, ErrorBody("Title is required"))
  const NotAuthorized := Response(403, ErrorBody("Not authorized"))
  const InternalError := Response(500, ErrorBody("Internal server error"))

  /** The statuses the handlers send on success. */
  predicate IsSuccess(r: Response) { r.status == 200 || r.status == 201 }
}
