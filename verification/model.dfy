/** The records of internal/model/user.go. */
module Model {

  /** An instant read from the wall clock; `ZeroTime` is Go's zero `time.Time`. */
  type Time = int

  const ZeroTime: Time := 0

  /** A row of the `users` table. `password` holds a hash, never the plain text. */
  datatype User = User(
    id: int,
    username: string,
    nickname: string,
    email: string,
    password: string,
    avatar: string,
    description: string,
    facePhoto: string,
    role: string,
    createdAt: Time,
    updatedAt: Time)

  /** The registration form; the two codes are the e-mail verification and invitation codes. */
  datatype RegisterRequest = RegisterRequest(
    username: string,
    email: string,
    password: string,
    emailPassword: string,
    certifyPassword: string)

  datatype LoginRequest = LoginRequest(usernameOrEmail: string, password: string)

  /** Profile fields a user may edit; an empty field means "keep the stored value". */
  datatype UpdateProfileRequest = UpdateProfileRequest(
    nickname: string,
    avatar: string,
    description: string,
    facePhoto: string)
}
