/** The two stored record types, the token claims, and the external services
    the request handlers call. */
module Records {
  import opened Wrappers

  type Bytes = seq<bv8>

  /** The role every new account gets (the schema default) and the one
      become-admin grants. */
  const UserRole: string := "user"
  const AdminRole: string := "admin"

  /** A document of the `users` collection. `id` stands for the database `_id`. */
  datatype User = User(id: nat, username: string, passwordHash: string, role: string)

  /** What `/admin/users` returns of a user: the `username role` projection,
      which keeps `_id` as projections do unless told otherwise, and never the
      password hash. */
  datatype UserView = UserView(id: nat, username: string, role: string)

  /** A document of the `levels` collection. `createdAt` is an abstract clock reading. */
  datatype Level = Level(
    id: nat,
    creator: string,
    title: string,
    description: string,
    images: seq<string>,
    jsonUrl: string,
    createdAt: nat)

  /** The payload of a session token: `{ id, username, role }`. */
  datatype Claims = Claims(id: nat, username: string, role: string)

  /** Cloudinary's `resource_type`: uploads default to `auto`, destroys to `image`. */
  datatype ResourceType = Auto | Image | Raw

  /** One call issued to the media service. */
  datatype BlobCall =
    | Upload(file: Bytes, kind: ResourceType)
    | Destroy(publicId: string, kind: ResourceType)

  /** One delete issued to the database, with the number of media-service
      calls issued before it (its place among those calls). */
  datatype Deletion =
    | LevelById(id: nat, afterCalls: nat)
    | LevelsByCreator(creator: string, afterCalls: nat)
    | UserByName(username: string, afterCalls: nat)

  /** What a handler sends back: `res.status(status).json({ success, ... })`,
      a bare JSON array (search), or no reply at all when a promise rejects
      outside any try block and the rejection escapes the handler. */
  datatype Reply =
    | Json(status: nat, success: bool)
    | BareArray
    | Unhandled

  /** The `:id` route parameter: either it casts to an ObjectId or it does not. */
  datatype IdParam = ObjectId(id: nat) | NotAnObjectId

  /** The libraries and configuration the handlers depend on, as total functions:
      - hash: `bcrypt.hash(password, 10)`, None when it throws;
      - compare: `bcrypt.compare(password, hash)`;
      - sign, verify: `jwt.sign` and `jwt.verify` with the server secret, verify
        giving None when it throws (malformed, expired or badly signed token);
      - upload: `upload_stream` resolving to a `secure_url`, None when it rejects;
      - destroy: `uploader.destroy` resolving (true) or rejecting (false);
      - regexValid, regexMatch: the database's case-insensitive `$regex` on a pattern;
      - adminKey: `process.env.ADMIN_KEY`, None when unset. */
  datatype Services = Services(
    hash: string -> Option<string>,
    compare: (string, string) -> bool,
    sign: Claims -> string,
    verify: string -> Option<Claims>,
    upload: (Bytes, ResourceType) -> Option<string>,
    destroy: (string, ResourceType) -> bool,
    regexValid: string -> bool,
    regexMatch: (string, string) -> bool,
    adminKey: Option<string>)
}
