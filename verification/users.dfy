/** The user directory: create a user under an unused email, look users up by
    email or id, patch profile fields, list active users, and soft-delete by
    clearing `isActive`. The clock is the parameter `now`. */
module Users {
  import opened Wrappers
  import opened Schema
  import opened Store

  /** The arguments `createUser` accepts. */
  datatype NewUser = NewUser(
    email: string,
    name: string,
    avatar: Option<string>,
    bio: Option<string>,
    timezone: Option<string>)

  /** The optional fields `updateUser` accepts besides the user id; `None` means
      the caller did not supply the field. */
  datatype UserPatch = UserPatch(
    name: Option<string>,
    avatar: Option<string>,
    bio: Option<string>,
    timezone: Option<string>,
    notifications: Option<bool>)

  /** A user document together with its id, as queries return it. */
  datatype UserDoc = UserDoc(id: UserId, user: User)

  /** Some stored user, active or not, has this email. */
  predicate EmailTaken(users: map<UserId, User>, email: string) {
    exists id :: id in users && users[id].email == email
  }

  /** The ids of the stored users with this email. */
  function WithEmail(users: map<UserId, User>, email: string): set<UserId> {
    set id | id in users && users[id].email == email
  }

  /** No two stored users share an email. */
  predicate EmailsUnique(users: map<UserId, User>) {
    forall a, b :: a in users && b in users && users[a].email == users[b].email ==> a == b
  }

  /** `createUser`: throws when the by-email lookup finds any user (whether or not
      it is active); otherwise inserts the caller's fields with notifications on,
      the user active, and both timestamps at `now`. */
  function CreateUser(db: Db, args: NewUser, now: Millis): (r: Result<Created<UserId>, Error>)
    ensures r.Failure? <==> EmailTaken(db.users, args.email)
    ensures r.Failure? ==> r.error == DuplicateEmail
    ensures r.Success? ==>
      var (db', id) := (r.value.db, r.value.id);
      && id !in db.users
      && (forall k :: k in db.tasks ==> db.tasks[k].createdBy != id && db.tasks[k].assignedTo != Some(id))
      && (forall g :: g in db.groups ==> db.groups[g].createdBy != id && id !in db.groups[g].members)
      && db'.users.Keys == db.users.Keys + {id}
      && (forall k :: k in db.users ==> db'.users[k] == db.users[k])
      && db'.users[id].email == args.email
      && db'.users[id].name == args.name
      && db'.users[id].avatar == args.avatar
      && db'.users[id].bio == args.bio
      && db'.users[id].timezone == args.timezone
      && db'.users[id].notifications == Some(true)
      && db'.users[id].isActive
      && db'.users[id].createdAt == now
      && db'.users[id].updatedAt == now
      && db' == db.(users := db'.users)
  {
    if EmailTaken(db.users, args.email) then
      Failure(DuplicateEmail)
    else
      var id := NewUserId(db);
      var user := User(args.email, args.name, args.avatar, args.bio, args.timezone,
                       Some(true), now, now, true);
      Success(Created(db.(users := db.users[id := user]), id))
  }

  /** `getUserByEmail`: the first document the by-email index yields. Which of
      several matches comes first is the index's business, so the model takes
      any match. */
  method GetUserByEmail(db: Db, email: string) returns (r: Option<UserDoc>)
    ensures r.Some? ==> r.value.id in db.users && db.users[r.value.id] == r.value.user
    ensures r.Some? ==> r.value.user.email == email
    ensures r.None? <==> !EmailTaken(db.users, email)
  {
    var unseen := db.users.Keys;
    while unseen != {}
      invariant unseen <= db.users.Keys
      invariant forall id :: id in db.users && id !in unseen ==> db.users[id].email != email
      decreases unseen
    {
      var id :| id in unseen;
      if db.users[id].email == email {
        return Some(UserDoc(id, db.users[id]));
      }
      unseen := unseen - {id};
    }
    return None;
  }

  /** `getUserById`: the stored document, active or not, or nothing. */
  function GetUserById(db: Db, id: UserId): (r: Option<User>)
    ensures r.Some? <==> id in db.users
    ensures r.Some? ==> r.value == db.users[id]
  {
    Get(db.users, id)
  }

  /** The user after `updateUser`'s patch: supplied fields replaced, `updatedAt`
      refreshed, everything else kept. */
  function PatchUser(u: User, p: UserPatch, now: Millis): User {
    u.(name := p.name.GetOr(u.name),
       avatar := if p.avatar.Some? then p.avatar else u.avatar,
       bio := if p.bio.Some? then p.bio else u.bio,
       timezone := if p.timezone.Some? then p.timezone else u.timezone,
       notifications := if p.notifications.Some? then p.notifications else u.notifications,
       updatedAt := now)
  }

  /** `updateUser`: patches the profile fields the caller supplied and stamps
      `updatedAt`; the storage layer throws when the id is not stored. */
  function UpdateUser(db: Db, id: UserId, p: UserPatch, now: Millis): (r: Result<Db, Error>)
    ensures r.Failure? <==> id !in db.users
    ensures r.Failure? ==> r.error == NonexistentDocument
    ensures r.Success? ==> r.value.users.Keys == db.users.Keys
    ensures r.Success? ==>
      var (u, u') := (db.users[id], r.value.users[id]);
      && (forall k :: k in db.users && k != id ==> r.value.users[k] == db.users[k])
      && r.value == db.(users := r.value.users)
      && (p.name.Some? ==> u'.name == p.name.value)
      && (p.name.None? ==> u'.name == u.name)
      && (p.avatar.Some? ==> u'.avatar == p.avatar)
      && (p.avatar.None? ==> u'.avatar == u.avatar)
      && (p.bio.Some? ==> u'.bio == p.bio)
      && (p.bio.None? ==> u'.bio == u.bio)
      && (p.timezone.Some? ==> u'.timezone == p.timezone)
      && (p.timezone.None? ==> u'.timezone == u.timezone)
      && (p.notifications.Some? ==> u'.notifications == p.notifications)
      && (p.notifications.None? ==> u'.notifications == u.notifications)
      && u'.updatedAt == now
      && u'.email == u.email
      && u'.isActive == u.isActive
      && u'.createdAt == u.createdAt
  {
    if id !in db.users then Failure(NonexistentDocument)
    else Success(db.(users := db.users[id := PatchUser(db.users[id], p, now)]))
  }

  /** `getAllUsers`: the active users, with their ids. */
  function GetAllUsers(db: Db): (r: set<UserDoc>)
    ensures forall d :: d in r <==> d.id in db.users && db.users[d.id] == d.user && d.user.isActive
  {
    set id | id in db.users && db.users[id].isActive :: UserDoc(id, db.users[id])
  }

  /** `deactivateUser`: the soft delete. The document stays; only `isActive` and
      `updatedAt` change. The storage layer throws when the id is not stored. */
  function DeactivateUser(db: Db, id: UserId, now: Millis): (r: Result<Db, Error>)
    ensures r.Failure? <==> id !in db.users
    ensures r.Failure? ==> r.error == NonexistentDocument
    ensures r.Success? ==>
      && r.value.users.Keys == db.users.Keys
      && (forall k :: k in db.users && k != id ==> r.value.users[k] == db.users[k])
      && r.value.users[id] == db.users[id].(isActive := false, updatedAt := now)
      && r.value == db.(users := r.value.users)
  {
    if id !in db.users then Failure(NonexistentDocument)
    else Success(db.(users := db.users[id := db.users[id].(isActive := false, updatedAt := now)]))
  }

  /** The database a user mutation leaves behind: the new one on success, the
      old one when it throws (a mutation that throws commits nothing). */
  function Commit<T>(db: Db, r: Result<T, Error>, after: T -> Db): Db {
    if r.Success? then after(r.value) else db
  }

  /** Creating a user keeps emails unique, whether it succeeds or throws. */
  lemma CreateUserKeepsEmailsUnique(db: Db, args: NewUser, now: Millis)
    requires EmailsUnique(db.users)
    ensures EmailsUnique(Commit(db, CreateUser(db, args, now), (c: Created<UserId>) => c.db).users)
  {
    var r := CreateUser(db, args, now);
    if r.Success? {
      var users' := r.value.db.users;
      var id := r.value.id;
      forall a, b | a in users' && b in users' && users'[a].email == users'[b].email
        ensures a == b
      {
        if a == id || b == id {
          assert !EmailTaken(db.users, args.email);
        }
      }
    }
  }

  /** After a successful `createUser`, the new user is the only one with that
      email, and a lookup by email finds it active with notifications on. */
  lemma CreateUserThenLookup(db: Db, args: NewUser, now: Millis)
    requires CreateUser(db, args, now).Success?
    ensures var c := CreateUser(db, args, now).value;
      && WithEmail(c.db.users, args.email) == {c.id}
      && c.db.users[c.id].isActive
      && c.db.users[c.id].notifications == Some(true)
  {
  }

  /** Creating the same email twice: the second call throws, and exactly one user
      with that email exists afterwards. */
  lemma CreateUserTwice(db: Db, first: NewUser, second: NewUser, now: Millis, later: Millis)
    requires CreateUser(db, first, now).Success?
    requires second.email == first.email
    ensures var c := CreateUser(db, first, now).value;
      && CreateUser(c.db, second, later) == Failure(DuplicateEmail)
      && WithEmail(c.db.users, first.email) == {c.id}
  {
    var c := CreateUser(db, first, now).value;
    CreateUserThenLookup(db, first, now);
    assert c.db.users[c.id].email == second.email;
  }

  /** The duplicate check does not look at `isActive`: a deactivated user's email
      still blocks a new user with the same email. */
  lemma DeactivatedEmailStillTaken(db: Db, id: UserId, now: Millis, args: NewUser, later: Millis)
    requires id in db.users
    requires args.email == db.users[id].email
    ensures DeactivateUser(db, id, now).Success?
    ensures CreateUser(DeactivateUser(db, id, now).value, args, later) == Failure(DuplicateEmail)
  {
    var db' := DeactivateUser(db, id, now).value;
    assert db'.users[id].email == args.email;
  }

  /** `updateUser` cannot change an email, so it keeps emails unique. */
  lemma UpdateUserKeepsEmailsUnique(db: Db, id: UserId, p: UserPatch, now: Millis)
    requires EmailsUnique(db.users)
    requires UpdateUser(db, id, p, now).Success?
    ensures EmailsUnique(UpdateUser(db, id, p, now).value.users)
  {
    var users' := UpdateUser(db, id, p, now).value.users;
    forall a, b | a in users' && b in users' && users'[a].email == users'[b].email
      ensures a == b
    {
      assert users'[a].email == db.users[a].email;
      assert users'[b].email == db.users[b].email;
    }
  }

  /** `deactivateUser` cannot change an email, so it keeps emails unique. */
  lemma DeactivateUserKeepsEmailsUnique(db: Db, id: UserId, now: Millis)
    requires EmailsUnique(db.users)
    requires DeactivateUser(db, id, now).Success?
    ensures EmailsUnique(DeactivateUser(db, id, now).value.users)
  {
    var users' := DeactivateUser(db, id, now).value.users;
    forall a, b | a in users' && b in users' && users'[a].email == users'[b].email
      ensures a == b
    {
      assert users'[a].email == db.users[a].email;
      assert users'[b].email == db.users[b].email;
    }
  }

  /** After `deactivateUser(id)`, `getAllUsers` no longer lists the user, while
      `getUserById` still returns the document, now inactive. */
  lemma DeactivateHidesFromListing(db: Db, id: UserId, now: Millis)
    requires id in db.users
    ensures DeactivateUser(db, id, now).Success?
    ensures forall d :: d in GetAllUsers(DeactivateUser(db, id, now).value) ==> d.id != id
    ensures GetUserById(DeactivateUser(db, id, now).value, id).Some?
    ensures !GetUserById(DeactivateUser(db, id, now).value, id).value.isActive
    ensures GetUserById(DeactivateUser(db, id, now).value, id).value.email == db.users[id].email
  {
  }

  /** `getAllUsers` lists every active user exactly once: one document per id. */
  lemma GetAllUsersOnePerActiveUser(db: Db)
    ensures |GetAllUsers(db)| == |set id | id in db.users && db.users[id].isActive|
  {
    var active := set id | id in db.users && db.users[id].isActive;
    var r := GetAllUsers(db);
    forall k | k in active
      ensures exists d :: d in r && d.id == k
    {
      assert UserDoc(k, db.users[k]) in r;
    }
    BijectionCardinality(r, active, (d: UserDoc) => d.id);
  }
}
