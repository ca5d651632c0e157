/** The `User` schema: its paths, which of them are required, and the record
    the controller sends back with the password digest removed. */
module UserModel {
  import opened Values
  import opened Crypto

  /** A reference to a pin document. */
  type PinId = nat

  /** The object handed to `User.create`: every path of the schema, each of the
      string paths possibly missing. */
  datatype Document = Document(
    displayName: Option<string>,
    username: Option<string>,
    email: Option<string>,
    img: Option<string>,
    hashedPassword: Option<string>,
    savedPins: seq<PinId>)

  /** A stored user record: the store-assigned id, the schema paths and the
      `timestamps` pair. */
  datatype User = User(
    id: UserId,
    displayName: string,
    username: string,
    email: string,
    img: Option<string>,
    hashedPassword: string,
    savedPins: seq<PinId>,
    createdAt: nat,
    updatedAt: nat)

  /** Schema validation: `displayName`, `username`, `email` and
      `hashedPassword` are required; `img` and `savedPins` are not. */
  predicate IsValid(doc: Document) {
    Truthy(doc.displayName) && Truthy(doc.username) && Truthy(doc.email) && Truthy(doc.hashedPassword)
  }

  /** The schema paths of a stored record, as a document again. */
  function ToDocument(u: User): Document {
    Document(Some(u.displayName), Some(u.username), Some(u.email), u.img, Some(u.hashedPassword), u.savedPins)
  }

  /** `User.create(doc)`: validates the document and stores exactly its paths
      under a fresh id, stamping both timestamps with `now`. The schema
      declares no unique index, so nothing here looks at other records. */
  function Create(doc: Document, id: UserId, now: nat): (r: Option<User>)
    ensures r.Some? <==> IsValid(doc)
    ensures r.Some? ==> ToDocument(r.value) == doc && IsValid(ToDocument(r.value))
    ensures r.Some? ==> r.value.id == id && r.value.createdAt == now && r.value.updatedAt == now
  {
    if IsValid(doc) then
      Some(User(id, doc.displayName.value, doc.username.value, doc.email.value, doc.img,
                doc.hashedPassword.value, doc.savedPins, now, now))
    else
      None
  }

  /** `img` is optional: whether a document is valid never depends on it. */
  lemma ImgIsOptional(doc: Document, img: Option<string>)
    ensures IsValid(doc.(img := img)) == IsValid(doc)
    ensures IsValid(doc) ==> IsValid(doc.(img := None))
  {
  }

  /** A user record as sent in a response: every field but `hashedPassword`. */
  datatype PublicUser = PublicUser(
    id: UserId,
    displayName: string,
    username: string,
    email: string,
    img: Option<string>,
    savedPins: seq<PinId>,
    createdAt: nat,
    updatedAt: nat)

  /** `const { hashedPassword, ...details } = user.toObject()`. */
  function ToPublic(u: User): (p: PublicUser)
    ensures WithDigest(p, u.hashedPassword) == u
  {
    PublicUser(u.id, u.displayName, u.username, u.email, u.img, u.savedPins, u.createdAt, u.updatedAt)
  }

  /** Puts a digest back into a public record. */
  function WithDigest(p: PublicUser, hashedPassword: string): User {
    User(p.id, p.displayName, p.username, p.email, p.img, hashedPassword, p.savedPins, p.createdAt, p.updatedAt)
  }

  /** The public record does not depend on the digest at all, so no response
      built from it can reveal the digest. */
  lemma PublicViewHidesDigest(u: User, digest: string)
    ensures ToPublic(u.(hashedPassword := digest)) == ToPublic(u)
    ensures ToPublic(u) == ToPublic(WithDigest(ToPublic(u), digest))
  {
  }
}
