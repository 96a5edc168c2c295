/** The user record (internal/models/entity/user_entity.go) and the types the store is keyed by. */
module Entity {
  import opened Wrappers

  /** 2^128: a uuid.UUID is sixteen bytes. */
  const UuidSpace: nat := 0x1_0000_0000_0000_0000_0000_0000_0000_0000

  /** A 128-bit identifier, seen as the number its sixteen bytes spell. */
  type Uuid = x: nat | x < UuidSpace

  /** uuid.Nil, the all-zero identifier, which the generators return alongside an error. */
  const Nil: Uuid := 0

  /** entity.UserEntity: `Id uuid.UUID`, `Name string`. */
  datatype User = User(id: Uuid, name: string)

  /** The `users` relation: one name per `id` key. */
  type Table = map<Uuid, string>

  /**
   * uuid.Parse: a string either parses to an identifier or is rejected with the
   * library's error text. The library is not part of this model, so the parser is a
   * parameter of whoever uses it.
   */
  type Parser = string -> Result<Uuid, string>
}
