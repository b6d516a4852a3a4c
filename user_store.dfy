/** The users collection in its natural (insertion) order, which is the
    order `findOne` and `findById` scan, with the unique indexes on
    username and e-mail (src/models/User/index.js:15-16) as a store
    invariant. */
module UserStore {
  import opened Wrappers
  import opened Principal
  import opened UserModel
  import opened Js

  type Users = seq<User>

  /** No two documents share an id, a username or an e-mail. */
  predicate UniqueAccounts(users: Users) {
    forall i, j :: 0 <= i < j < |users| ==>
      users[i].id != users[j].id && users[i].username != users[j].username && users[i].email != users[j].email
  }

  /** Every stored password is a digest: the pre-save hook hashes each
      password it lets through. */
  predicate Hashed(users: Users) {
    forall i :: 0 <= i < |users| ==> users[i].password.Digest?
  }

  /** The position of the first document satisfying the query, scanning
      from `from`. */
  function FindIdFrom(users: Users, id: Id, from: nat): (r: Option<nat>)
    requires from <= |users|
    ensures r.Some? ==> from <= r.value < |users| && users[r.value].id == id &&
                        forall k :: from <= k < r.value ==> users[k].id != id
    ensures r.None? ==> forall k :: from <= k < |users| ==> users[k].id != id
    decreases |users| - from
  {
    if from == |users| then None
    else if users[from].id == id then Some(from)
    else FindIdFrom(users, id, from + 1)
  }

  /** `findById`: the document with that id, if any. */
  function FindById(users: Users, id: Id): (r: Option<nat>)
    ensures r.Some? ==> r.value < |users| && users[r.value].id == id
    ensures r.None? <==> forall k :: 0 <= k < |users| ==> users[k].id != id
  {
    FindIdFrom(users, id, 0)
  }

  /** The first document from `from` on whose e-mail is `email` or whose
      username is `username`. */
  function FindIdentifierFrom(users: Users, email: string, username: string, from: nat): (r: Option<nat>)
    requires from <= |users|
    ensures r.Some? ==> from <= r.value < |users| && HoldsKey(users[r.value], email, username) &&
                        forall k :: from <= k < r.value ==> !HoldsKey(users[k], email, username)
    ensures r.None? ==> forall k :: from <= k < |users| ==> !HoldsKey(users[k], email, username)
    decreases |users| - from
  {
    if from == |users| then None
    else if HoldsKey(users[from], email, username) then Some(from)
    else FindIdentifierFrom(users, email, username, from + 1)
  }

  /** `findByEmailOrUsername`: the first document whose e-mail is the
      identifier lower-cased and trimmed or whose username is the
      identifier trimmed. */
  function FindByIdentifier(users: Users, identifier: string): (r: Option<nat>)
    ensures r.Some? ==> r.value < |users| && MatchesIdentifier(users[r.value], identifier) &&
                        forall k :: 0 <= k < r.value ==> !MatchesIdentifier(users[k], identifier)
    ensures r.None? <==> forall k :: 0 <= k < |users| ==> !MatchesIdentifier(users[k], identifier)
  {
    FindIdentifierFrom(users, Trim(Lower(identifier)), Trim(identifier), 0)
  }

  /** With unique ids the lookup finds the one document holding the id. */
  lemma FindByIdUnique(users: Users, i: nat)
    requires UniqueAccounts(users) && i < |users|
    ensures FindById(users, users[i].id) == Some(i)
  {
  }

  /** `countDocuments({ role: 'admin' })` */
  function AdminCount(users: Users): nat {
    if users == [] then 0 else (if IsAdmin(users[0]) then 1 else 0) + AdminCount(users[1..])
  }

  lemma {:induction false} AdminCountConcat(a: Users, b: Users)
    ensures AdminCount(a + b) == AdminCount(a) + AdminCount(b)
  {
    if a == [] {
      assert a + b == b;
    } else {
      assert (a + b)[0] == a[0];
      assert (a + b)[1..] == a[1..] + b;
      AdminCountConcat(a[1..], b);
    }
  }

  /** The count split around position i. */
  lemma {:induction false} AdminCountAt(users: Users, i: nat)
    requires i < |users|
    ensures AdminCount(users) == AdminCount(users[..i]) + (if IsAdmin(users[i]) then 1 else 0) + AdminCount(users[i + 1..])
  {
    if i == 0 {
      assert users[..0] == [];
      assert users[1..] == users[i + 1..];
    } else {
      var tail := users[1..];
      AdminCountAt(tail, i - 1);
      assert users[..i][0] == users[0] && users[..i][1..] == tail[..i - 1];
      assert tail[i - 1] == users[i] && tail[i..] == users[i + 1..];
    }
  }

  /** An admin in the collection is counted. */
  lemma AdminCounted(users: Users, i: nat)
    requires i < |users| && IsAdmin(users[i])
    ensures AdminCount(users) >= 1
  {
    AdminCountAt(users, i);
  }

  /** Replacing one document changes the count by its change of role only. */
  lemma AdminCountReplace(users: Users, i: nat, u: User)
    requires i < |users|
    ensures AdminCount(users[i := u]) ==
      AdminCount(users) - (if IsAdmin(users[i]) then 1 else 0) + (if IsAdmin(u) then 1 else 0)
  {
    AdminCountAt(users, i);
    AdminCountAt(users[i := u], i);
    assert users[i := u][..i] == users[..i];
    assert users[i := u][i + 1..] == users[i + 1..];
  }

  lemma AdminCountAppend(users: Users, u: User)
    ensures AdminCount(users + [u]) == AdminCount(users) + (if IsAdmin(u) then 1 else 0)
  {
    AdminCountConcat(users, [u]);
    assert [u][1..] == [];
  }

  /** `user.remove()`: the collection without the document at i. */
  function RemoveAt(users: Users, i: nat): (r: Users)
    requires i < |users|
    ensures |r| == |users| - 1
    ensures forall k :: 0 <= k < |r| ==> r[k] == if k < i then users[k] else users[k + 1]
  {
    users[..i] + users[i + 1..]
  }

  lemma AdminCountRemove(users: Users, i: nat)
    requires i < |users|
    ensures AdminCount(RemoveAt(users, i)) == AdminCount(users) - (if IsAdmin(users[i]) then 1 else 0)
  {
    AdminCountAt(users, i);
    AdminCountConcat(users[..i], users[i + 1..]);
  }

  /** Removing a document keeps the store invariants. */
  lemma RemoveKeepsInvariants(users: Users, i: nat)
    requires i < |users| && UniqueAccounts(users) && Hashed(users)
    ensures UniqueAccounts(RemoveAt(users, i)) && Hashed(RemoveAt(users, i))
  {
    var r := RemoveAt(users, i);
    forall a, b | 0 <= a < b < |r|
      ensures r[a].id != r[b].id && r[a].username != r[b].username && r[a].email != r[b].email
    {
      var a', b' := if a < i then a else a + 1, if b < i then b else b + 1;
      assert r[a] == users[a'] && r[b] == users[b'] && a' < b';
    }
  }
}
