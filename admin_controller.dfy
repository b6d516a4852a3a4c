/** The administrators' handlers over other accounts
    (src/controllers/user/admin.js): updating and deleting a user, and the
    sort order of the user list.  `callerId` is `req.user.id`, `targetId`
    the route's `:id`.  The handlers are functions of the users collection;
    the class `Directory` runs them step by step over the collection as
    mutable state, copying the body key by key as the handler does. */
module AdminController {
  import opened Wrappers
  import opened Principal
  import opened UserModel
  import opened UserStore
  import opened UserHooks
  import AC = AuthController
  import SortUtils
  import Js
  import Patterns

  /** `sortOrder === 'desc' ? -1 : 1`, the query's `sortOrder` defaulting
      to 'desc'. */
  function SortOrderParam(sortOrder: Option<string>): (r: int)
    ensures r == 1 || r == -1
  {
    if sortOrder.None? || sortOrder.value == "desc" then -1 else 1
  }

  /** Against the shared `normalizeSortOrder`: the two agree on 'asc',
      'desc' and on an absent order (descending), but the admin listing
      reads only the exact word 'desc', so 'DESC' and '-1' sort ascending
      there and descending everywhere else. */
  lemma SortOrderAgainstShared()
    ensures SortOrderParam(None) == -1
    ensures SortOrderParam(Some("desc")) == SortUtils.NormalizeSortOrder(Js.Str("desc")) == -1
    ensures SortOrderParam(Some("asc")) == SortUtils.NormalizeSortOrder(Js.Str("asc")) == 1
    ensures SortOrderParam(Some("DESC")) == 1 && SortUtils.NormalizeSortOrder(Js.Str("DESC")) == -1
    ensures SortOrderParam(Some("-1")) == 1 && SortUtils.NormalizeSortOrder(Js.Str("-1")) == -1
  {
    LowerWord("desc", "desc");
    LowerWord("asc", "asc");
    LowerWord("DESC", "desc");
    LowerWord("-1", "-1");
    SortUtils.KeywordOrders("desc");
    SortUtils.KeywordOrders("asc");
    SortUtils.KeywordOrders("DESC");
    SortUtils.KeywordOrders("-1");
  }

  lemma LowerWord(s: string, t: string)
    requires |s| == |t| && forall i :: 0 <= i < |s| ==> Js.LowerChar(s[i]) == t[i]
    ensures Js.Lower(s) == t
  {
  }

  /** The paths the assignments of a body mark as modified. */
  function Paths(body: seq<Assignment>): (r: set<string>)
    ensures forall a :: a in body ==> Key(a) in r
    ensures forall p :: p in r ==> exists a :: a in body && Key(a) == p
  {
    if body == [] then {}
    else
      var init, last := body[..|body| - 1], body[|body| - 1];
      assert body == init + [last];
      Paths(init) + {Key(last)}
  }

  lemma PathsSnoc(body: seq<Assignment>, a: Assignment)
    ensures Paths(body + [a]) == Paths(body) + {Key(a)}
  {
    assert (body + [a])[..|body|] == body;
  }

  /** One more element of the body: its path is added unless it is dropped. */
  lemma PathsStep(body: seq<Assignment>, i: nat, keys: set<string>)
    requires i < |body|
    ensures Paths(Drop(body[..i + 1], keys)) ==
      if Key(body[i]) in keys then Paths(Drop(body[..i], keys)) else Paths(Drop(body[..i], keys)) + {Key(body[i])}
  {
    assert body[..i + 1] == body[..i] + [body[i]];
    DropSnoc(body[..i], body[i], keys);
    if Key(body[i]) in keys {
      assert Drop(body[..i], keys) + [] == Drop(body[..i], keys);
    } else {
      PathsSnoc(Drop(body[..i], keys), body[i]);
    }
  }

  /** The keys `updateUser` never copies. */
  const Withheld: set<string> := {"password"}

  /** The body with the password removed leaves the password, and the id,
      as they were, and marks no password path. */
  lemma WithheldUntouched(u: User, body: seq<Assignment>)
    ensures AssignAll(u, Drop(body, Withheld)).password == u.password
    ensures AssignAll(u, Drop(body, Withheld)).id == u.id
    ensures "password" !in Paths(Drop(body, Withheld))
  {
    AssignAllKeepsPassword(u, Drop(body, Withheld));
  }

  /** Another account already holds the username or e-mail: the unique
      index refuses the write with a duplicate-key error, which is not a
      ValidationError. */
  predicate ClashesOther(users: Users, i: nat, u: User) {
    exists k :: 0 <= k < |users| && k != i && (users[k].username == u.username || users[k].email == u.email)
  }

  /** `updateUser`: 500 for an id that is no ObjectId, whose cast makes
      `findById` (line 128) throw into the catch block; 404 when no user
      has the ObjectId the target id casts to; 400 when an admin would
      change their own role, and when the last admin would lose the role;
      otherwise every key of the body except the password is assigned and
      the document saved with validation: a ValidationError answers 400, a
      duplicate username or e-mail 500. */
  function AdminUpdate(users: Users, callerId: Id, targetId: Id, body: seq<Assignment>, minLength: int, now: int): (r: AC.Outcome)
    ensures r.code in {200, 400, 404, 500}
    ensures r.code != 200 ==> r.users == users
    ensures !Patterns.ObjectIdText(targetId) ==> r.code == 500
    ensures r.code == 404 <==> Patterns.ObjectIdText(targetId) && FindById(users, Patterns.ObjectIdKey(targetId)).None?
    ensures Patterns.ObjectIdText(targetId) && FindById(users, Patterns.ObjectIdKey(targetId)).Some? ==>
              var u := users[FindById(users, Patterns.ObjectIdKey(targetId)).value];
              var role := RoleIn(body);
              var guarded := (u.id == callerId && Given(role) && role.value != u.role) ||
                             (IsAdmin(u) && Given(role) && role.value != Admin && AdminCount(users) <= 1);
              var saved := Save(AssignAll(u, Drop(body, Withheld)), Paths(Drop(body, Withheld)), true, minLength, now);
              (guarded ==> r.code == 400) &&
              (r.code == 200 <==> !guarded && saved.Ok? && !ClashesOther(users, FindById(users, Patterns.ObjectIdKey(targetId)).value, saved.value))
    ensures r.code == 200 ==>
              var i := FindById(users, Patterns.ObjectIdKey(targetId)).value;
              var edited := AssignAll(users[i], Drop(body, Withheld));
              |r.users| == |users| && r.users == users[i := r.users[i]] &&
              UserValid(edited, now) && !ClashesOther(users, i, r.users[i]) &&
              r.users[i] == Save(edited, Paths(Drop(body, Withheld)), true, minLength, now).value &&
              r.users[i].password == users[i].password && r.users[i].id == users[i].id &&
              r.users[i].role == RoleIn(body).GetOr(users[i].role)
  {
    var found := FindById(users, Patterns.ObjectIdKey(targetId));
    if !Patterns.ObjectIdText(targetId) then AC.Outcome(500, users)
    else if found.None? then AC.Outcome(404, users)
    else
      var i := found.value;
      var u := users[i];
      var role := RoleIn(body);
      if u.id == callerId && Given(role) && role.value != u.role then AC.Outcome(400, users)
      else if IsAdmin(u) && Given(role) && role.value != Admin && AdminCount(users) <= 1 then AC.Outcome(400, users)
      else
        var edited := AssignAll(u, Drop(body, Withheld));
        var modified := Paths(Drop(body, Withheld));
        WithheldUntouched(u, body);
        AssignAllRole(u, Drop(body, Withheld));
        RoleAfterDrop(body);
        Commit(users, i, edited, modified, minLength, now)
  }

  /** The save of an updated document and its answer: 400 for a
      ValidationError, 500 for a duplicate username or e-mail, else 200
      with the saved document in place. */
  function Commit(users: Users, i: nat, edited: User, modified: set<string>, minLength: int, now: int): (r: AC.Outcome)
    requires i < |users|
    ensures r.code in {200, 400, 500}
    ensures r.code != 200 ==> r.users == users
    ensures r.code == 400 <==> Save(edited, modified, true, minLength, now).Err?
    ensures r.code == 200 ==>
              Save(edited, modified, true, minLength, now).Ok? &&
              !ClashesOther(users, i, Save(edited, modified, true, minLength, now).value) &&
              r.users == users[i := Save(edited, modified, true, minLength, now).value]
  {
    var saved := Save(edited, modified, true, minLength, now);
    if saved.Err? then AC.Outcome(400, users)
    else if ClashesOther(users, i, saved.value) then AC.Outcome(500, users)
    else AC.Outcome(200, users[i := saved.value])
  }

  /** Removing the password keys leaves the role the body gives. */
  lemma {:induction false} RoleAfterDrop(body: seq<Assignment>)
    ensures RoleIn(Drop(body, Withheld)) == RoleIn(body)
  {
    if body != [] {
      var init, last := body[..|body| - 1], body[|body| - 1];
      RoleAfterDrop(init);
      var d := Drop(init, Withheld);
      if Key(last) in Withheld {
        assert Drop(body, Withheld) == d;
      } else {
        assert Drop(body, Withheld) == d + [last];
        assert (d + [last])[..|d + [last]| - 1] == d;
      }
    }
  }

  /** An admin's own role survives any update they make to themselves,
      however the target id spells their id. */
  lemma OwnRoleUnchanged(users: Users, callerId: Id, targetId: Id, body: seq<Assignment>, minLength: int, now: int)
    requires Patterns.ObjectIdKey(targetId) == callerId
    requires AdminUpdate(users, callerId, targetId, body, minLength, now).code == 200
    ensures var i := FindById(users, callerId).value;
            AdminUpdate(users, callerId, targetId, body, minLength, now).users[i].role == users[i].role
  {
  }

  /** An update never leaves the collection without an admin. */
  lemma AdminUpdateKeepsAnAdmin(users: Users, callerId: Id, targetId: Id, body: seq<Assignment>, minLength: int, now: int)
    requires AdminCount(users) >= 1
    ensures AdminCount(AdminUpdate(users, callerId, targetId, body, minLength, now).users) >= 1
  {
    var r := AdminUpdate(users, callerId, targetId, body, minLength, now);
    if r.code == 200 {
      var i := FindById(users, Patterns.ObjectIdKey(targetId)).value;
      AdminCountReplace(users, i, r.users[i]);
    }
  }

  /** An update keeps every password hashed and no two accounts sharing an
      id, a username or an e-mail. */
  lemma AdminUpdateKeepsInvariants(users: Users, callerId: Id, targetId: Id, body: seq<Assignment>, minLength: int, now: int)
    requires UniqueAccounts(users) && Hashed(users)
    ensures var r := AdminUpdate(users, callerId, targetId, body, minLength, now);
            UniqueAccounts(r.users) && Hashed(r.users)
  {
    var r := AdminUpdate(users, callerId, targetId, body, minLength, now);
    if r.code == 200 {
      var i := FindById(users, Patterns.ObjectIdKey(targetId)).value;
      forall a, b | 0 <= a < b < |r.users|
        ensures r.users[a].id != r.users[b].id && r.users[a].username != r.users[b].username &&
                r.users[a].email != r.users[b].email
      {
        if a == i {
          assert r.users[b] == users[b];
        } else if b == i {
          assert r.users[a] == users[a];
        } else {
          assert r.users[a] == users[a] && r.users[b] == users[b];
        }
      }
    }
  }

  /** `deleteUser`: 500 for an id that is no ObjectId (`findById`, line
      216, throws into the catch block); 404 when no user has the ObjectId
      the target id casts to; 400 for the caller's own
      account and for the last admin; otherwise the document is removed,
      its pre-remove hook refusing (500) an admin removal that would leave
      no admin. */
  function AdminDelete(users: Users, callerId: Id, targetId: Id): (r: AC.Outcome)
    ensures r.code in {200, 400, 404, 500}
    ensures r.code != 200 ==> r.users == users
    ensures r.code == 404 <==> Patterns.ObjectIdText(targetId) && FindById(users, Patterns.ObjectIdKey(targetId)).None?
    ensures !Patterns.ObjectIdText(targetId) ==> r.code == 500
    ensures r.code == 200 <==>
              Patterns.ObjectIdText(targetId) && FindById(users, Patterns.ObjectIdKey(targetId)).Some? && Patterns.ObjectIdKey(targetId) != callerId &&
              RemoveAllowed(users[FindById(users, Patterns.ObjectIdKey(targetId)).value], AdminCount(users))
    ensures r.code == 200 ==> r.users == RemoveAt(users, FindById(users, Patterns.ObjectIdKey(targetId)).value)
  {
    var found := FindById(users, Patterns.ObjectIdKey(targetId));
    if !Patterns.ObjectIdText(targetId) then AC.Outcome(500, users)
    else if found.None? then AC.Outcome(404, users)
    else
      var u := users[found.value];
      if u.id == callerId then AC.Outcome(400, users)
      else if IsAdmin(u) && AdminCount(users) <= 1 then AC.Outcome(400, users)
      else if !RemoveAllowed(u, AdminCount(users)) then AC.Outcome(500, users)
      else AC.Outcome(200, RemoveAt(users, found.value))
  }

  /** A target id that is no ObjectId is answered 500 by both handlers,
      with the users unchanged, whether or not a user holds it. */
  lemma MalformedTargetIs500(users: Users, callerId: Id, targetId: Id, body: seq<Assignment>, minLength: int, now: int)
    requires !Patterns.ObjectIdText(targetId)
    ensures AdminUpdate(users, callerId, targetId, body, minLength, now) == AC.Outcome(500, users)
    ensures AdminDelete(users, callerId, targetId) == AC.Outcome(500, users)
  {
  }

  /** Only the ObjectId a target id casts to matters: a spelling of an id
      that differs in the case of its hex digits reaches the same user,
      and the caller's own account stays protected under any spelling. */
  lemma {:induction false} AnySpellingOfTarget(users: Users, callerId: Id, targetId: Id, body: seq<Assignment>,
                                               minLength: int, now: int)
    requires Patterns.ObjectIdText(targetId)
    ensures AdminUpdate(users, callerId, targetId, body, minLength, now) ==
            AdminUpdate(users, callerId, Patterns.ObjectIdKey(targetId), body, minLength, now)
    ensures AdminDelete(users, callerId, targetId) == AdminDelete(users, callerId, Patterns.ObjectIdKey(targetId))
  {
    Patterns.CanonicalIdIsKey(Patterns.ObjectIdKey(targetId));
  }

  /** A deletion never removes the last admin, and keeps the store
      invariants. */
  lemma AdminDeleteKeepsAnAdmin(users: Users, callerId: Id, targetId: Id)
    requires UniqueAccounts(users) && Hashed(users) && AdminCount(users) >= 1
    ensures var r := AdminDelete(users, callerId, targetId);
            UniqueAccounts(r.users) && Hashed(r.users) && AdminCount(r.users) >= 1
  {
    var r := AdminDelete(users, callerId, targetId);
    if r.code == 200 {
      var i := FindById(users, Patterns.ObjectIdKey(targetId)).value;
      RemoveKeepsAnAdmin(users, i);
      RemoveKeepsInvariants(users, i);
    }
  }

  /** `Object.keys(updateData).forEach(...)`: every key of the body but the
      password assigned to the document, in order, each assigned path
      marked as modified. */
  method CopyFields(u: User, body: seq<Assignment>) returns (v: User, modified: set<string>)
    ensures v == AssignAll(u, Drop(body, Withheld)) && modified == Paths(Drop(body, Withheld))
    ensures v.password == u.password && v.id == u.id && "password" !in modified
    ensures v.role == RoleIn(body).GetOr(u.role)
  {
    v := u;
    modified := {};
    var k := 0;
    while k < |body|
      invariant 0 <= k <= |body|
      invariant v == AssignAll(u, Drop(body[..k], Withheld))
      invariant modified == Paths(Drop(body[..k], Withheld))
    {
      DropStep(u, body, k, Withheld);
      PathsStep(body, k, Withheld);
      if Key(body[k]) != "password" {
        v := Assign(v, body[k]);
        modified := modified + {Key(body[k])};
      }
      k := k + 1;
    }
    assert body[..|body|] == body;
    WithheldUntouched(u, body);
    AssignAllRole(u, Drop(body, Withheld));
    RoleAfterDrop(body);
  }

  /** The users collection, updated in place by the two handlers. */
  class Directory {
    var users: Users

    constructor (users0: Users)
      ensures users == users0
    {
      users := users0;
    }

    /** `updateUser`, copying the body key by key, the password excepted. */
    method UpdateUser(callerId: Id, targetId: Id, body: seq<Assignment>, minLength: int, now: int) returns (code: int)
      modifies this
      ensures code == AdminUpdate(old(users), callerId, targetId, body, minLength, now).code
      ensures users == AdminUpdate(old(users), callerId, targetId, body, minLength, now).users
    {
      var all := users;
      if !Patterns.ObjectIdText(targetId) {
        return 500;
      }
      var found := FindById(all, Patterns.ObjectIdKey(targetId));
      if found.None? {
        return 404;
      }
      var i := found.value;
      var u := all[i];
      var role := RoleIn(body);
      if u.id == callerId && Given(role) && role.value != u.role {
        return 400;
      }
      if IsAdmin(u) && Given(role) && role.value != Admin && AdminCount(all) <= 1 {
        return 400;
      }
      var v, modified := CopyFields(u, body);
      assert AdminUpdate(all, callerId, targetId, body, minLength, now) == Commit(all, i, v, modified, minLength, now);
      var saved := Save(v, modified, true, minLength, now);
      if saved.Err? {
        return 400;
      }
      if ClashesOther(all, i, saved.value) {
        return 500;
      }
      users := all[i := saved.value];
      return 200;
    }

    /** `deleteUser` */
    method DeleteUser(callerId: Id, targetId: Id) returns (code: int)
      modifies this
      ensures code == AdminDelete(old(users), callerId, targetId).code
      ensures users == AdminDelete(old(users), callerId, targetId).users
    {
      var all := users;
      if !Patterns.ObjectIdText(targetId) {
        return 500;
      }
      var found := FindById(all, Patterns.ObjectIdKey(targetId));
      if found.None? {
        return 404;
      }
      var u := all[found.value];
      if u.id == callerId {
        return 400;
      }
      if IsAdmin(u) && AdminCount(all) <= 1 {
        return 400;
      }
      users := RemoveAt(all, found.value);
      return 200;
    }
  }
}
