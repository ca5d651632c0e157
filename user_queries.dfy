/** The two user-store queries the controller runs: `User.findOne({ email })`
    and `User.findOne({ username })`. */
module UserQueries {
  import opened Values
  import opened UserModel

  /** The path a lookup filters on. */
  datatype Key = ByEmail | ByUsername

  function FieldOf(u: User, key: Key): string {
    match key
    case ByEmail => u.email
    case ByUsername => u.username
  }

  /** Some stored record has `value` at path `key`. */
  ghost predicate InUse(users: seq<User>, key: Key, value: string) {
    exists i :: 0 <= i < |users| && FieldOf(users[i], key) == value
  }

  /** No two stored records share a value at path `key`. */
  ghost predicate Unique(users: seq<User>, key: Key) {
    forall i, j :: 0 <= i < j < |users| ==> FieldOf(users[i], key) != FieldOf(users[j], key)
  }

  /** `User.findOne({ key: value })`: the first stored record that matches, or null. */
  function FindOne(users: seq<User>, key: Key, value: string): (r: Option<User>)
    ensures r.Some? <==> InUse(users, key, value)
    ensures r.Some? ==> r.value in users && FieldOf(r.value, key) == value
  {
    if users == [] then None
    else if FieldOf(users[0], key) == value then Some(users[0])
    else
      assert forall i :: 1 <= i < |users| ==> users[i] == users[1..][i - 1];
      FindOne(users[1..], key, value)
  }

  /** The record found is the first match. */
  lemma {:induction false} FindOneFirst(users: seq<User>, key: Key, value: string, i: nat)
    requires i < |users| && FieldOf(users[i], key) == value
    requires forall j :: 0 <= j < i ==> FieldOf(users[j], key) != value
    ensures FindOne(users, key, value) == Some(users[i])
  {
    if i > 0 {
      FindOneFirst(users[1..], key, value, i - 1);
    }
  }

  /** When the path is unique, the lookup finds the one record holding the value. */
  lemma FindOneUnique(users: seq<User>, key: Key, i: nat)
    requires Unique(users, key) && i < |users|
    ensures FindOne(users, key, FieldOf(users[i], key)) == Some(users[i])
  {
    FindOneFirst(users, key, FieldOf(users[i], key), i);
  }

  /** A lookup of a value no earlier record holds finds an appended record. */
  lemma FindOneAppended(users: seq<User>, u: User, key: Key)
    requires !InUse(users, key, FieldOf(u, key))
    ensures FindOne(users + [u], key, FieldOf(u, key)) == Some(u)
  {
    var all := users + [u];
    forall j | 0 <= j < |users| ensures FieldOf(all[j], key) != FieldOf(u, key) {
      assert all[j] == users[j];
    }
    FindOneFirst(all, key, FieldOf(u, key), |users|);
  }
}
