/**
 * The user records the auth controller and middleware read and write.
 * backend/models/User.js is not part of this model: the fields are the ones
 * the controllers use, the password is whatever the schema's hashing stored,
 * and `role` is a plain string.
 */
module UserModel {
  import opened Json

  datatype User = User(id: Id, username: string, email: string, password: string, role: string)

  /** `_id` distinct; no two users share an email or a username (register refuses either). */
  predicate UserTableValid(users: seq<User>) {
    && (forall i, j :: 0 <= i < j < |users| ==> users[i].id != users[j].id)
    && (forall i, j :: 0 <= i < j < |users| ==> users[i].email != users[j].email)
    && (forall i, j :: 0 <= i < j < |users| ==> users[i].username != users[j].username)
  }

  /** Appending a user whose id, email and username are all new keeps the collection valid. */
  lemma AppendKeepsUserTable(users: seq<User>, u: User)
    requires UserTableValid(users)
    requires forall i :: 0 <= i < |users| ==> users[i].id != u.id && users[i].email != u.email && users[i].username != u.username
    ensures UserTableValid(users + [u])
  {
    var r := users + [u];
    assert forall i :: 0 <= i < |r| ==> r[i] == if i < |users| then users[i] else u;
  }

  function HasUserId(id: Id): User -> bool {
    (u: User) => u.id == id
  }

  function HasEmail(email: string): User -> bool {
    (u: User) => u.email == email
  }

  /** The `user` object register and login build: `{id, username, email, role}`. */
  function PublicUserJson(u: User): (r: JsValue)
    ensures r.Obj? && r.fields.Keys == {"id", "username", "email", "role"}
    ensures "password" !in r.fields
    ensures r.fields["id"] == Str(u.id) && r.fields["role"] == Str(u.role)
    ensures r.fields["username"] == Str(u.username) && r.fields["email"] == Str(u.email)
  {
    Obj(map["id" := Str(u.id), "username" := Str(u.username), "email" := Str(u.email), "role" := Str(u.role)])
  }

  /** A user document loaded with `.select('-password')`. */
  function SelectedUserJson(u: User): (r: JsValue)
    ensures r.Obj? && r.fields.Keys == {"_id", "username", "email", "role"}
    ensures "password" !in r.fields
    ensures r.fields["_id"] == Str(u.id) && r.fields["role"] == Str(u.role)
    ensures r.fields["username"] == Str(u.username) && r.fields["email"] == Str(u.email)
  {
    Obj(map["_id" := Str(u.id), "username" := Str(u.username), "email" := Str(u.email), "role" := Str(u.role)])
  }
}
