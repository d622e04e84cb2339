// The user table and the operations of internal/service/user_service.go.
// bcrypt stays abstract: a new password hash is handed in by the caller (it
// is salted, so it is fresh randomness), and checking a password against a
// stored hash is an uninterpreted function fixed when the service is built.

module Users {
  import opened Common

  datatype User = User(
    id: nat,
    email: string,
    passwordHash: string,
    fullName: string,
    phone: string,
    role: string,
    isActive: bool)

  /** The zero value Go leaves in a relation that was not loaded. */
  const ZeroUser: User := User(0, "", "", "", "", "", false)

  /** model.UserResponse: the user without its password hash. */
  datatype UserResponse = UserResponse(
    id: nat,
    email: string,
    fullName: string,
    phone: string,
    role: string,
    isActive: bool)

  function ToResponse(u: User): UserResponse
  {
    UserResponse(u.id, u.email, u.fullName, u.phone, u.role, u.isActive)
  }

  /** The request of CreateUser, with the password already hashed. */
  datatype CreateUserRequest = CreateUserRequest(
    email: string, fullName: string, phone: string, role: string)

  /** The request of UpdateUser: empty strings and a missing flag mean "keep". */
  datatype UpdateUserRequest = UpdateUserRequest(
    email: string, fullName: string, phone: string, role: string, isActive: Option<bool>)

  /** The request of UpdateMyProfile: a user may not touch role or status. */
  datatype UpdateMyProfileRequest = UpdateMyProfileRequest(
    email: string, fullName: string, phone: string)

  datatype UserStats = UserStats(
    totalUsers: nat,
    activeUsers: nat,
    adminUsers: nat,
    regularUsers: nat,
    inactiveUsers: int)

  function UserId(u: User): nat { u.id }
  function UserEmail(u: User): string { u.email }
  predicate IsAdmin(u: User) { u.role == "admin" }
  predicate IsRegular(u: User) { u.role == "user" }
  predicate IsActiveUser(u: User) { u.isActive }
  predicate IsInactiveUser(u: User) { !u.isActive }

  /** A partial-update field: an empty request value keeps the stored one. */
  function KeepOrReplace(stored: string, requested: string): (r: string)
    ensures requested == "" ==> r == stored
    ensures requested != "" ==> r == requested
  {
    if requested != "" then requested else stored
  }

  /** The table invariant: positive ids below the next one, increasing in
      table order (so the first match is the lowest id), unique emails
      (the unique index on `email`). */
  ghost predicate WellFormed(users: seq<User>, nextId: nat)
  {
    && (forall i :: 0 <= i < |users| ==> 0 < users[i].id < nextId)
    && (forall i, j :: 0 <= i < j < |users| ==> users[i].id < users[j].id)
    && UniqueKeys(users, UserEmail)
  }

  /** Inserting a row with a fresh id and an unused email keeps the table well formed. */
  lemma AppendWellFormed(users: seq<User>, nextId: nat, u: User)
    requires WellFormed(users, nextId)
    requires u.id == nextId && nextId > 0
    requires forall v :: v in users ==> v.email != u.email
    ensures WellFormed(users + [u], nextId + 1)
  {
    var s := users + [u];
    forall i, j | 0 <= i < j < |s| ensures s[i].email != s[j].email {
      if j == |users| {
        assert s[i] in users;
      }
    }
  }

  /** Rewriting one row in place, keeping its id and either keeping its email
      or taking one nobody uses, keeps the table well formed. */
  lemma ReplaceWellFormed(users: seq<User>, nextId: nat, i: nat, v: User)
    requires WellFormed(users, nextId)
    requires i < |users| && v.id == users[i].id
    requires v.email == users[i].email || forall w :: w in users ==> w.email != v.email
    ensures WellFormed(users[i := v], nextId)
  {
    var s := users[i := v];
    forall a, b | 0 <= a < b < |s| ensures s[a].email != s[b].email {
      if a == i {
        assert users[b] in users;
      } else if b == i {
        assert users[a] in users;
      }
    }
  }

  /** Deleting a row keeps the table well formed. */
  lemma RemoveWellFormed(users: seq<User>, nextId: nat, i: nat)
    requires WellFormed(users, nextId)
    requires i < |users|
    ensures WellFormed(RemoveAt(users, i), nextId)
  {
    var s := RemoveAt(users, i);
    forall a, b | 0 <= a < b < |s| ensures s[a].id < s[b].id && s[a].email != s[b].email {
      var a' := if a < i then a else a + 1;
      var b' := if b < i then b else b + 1;
      assert s[a] == users[a'] && s[b] == users[b'];
    }
  }

  /** GetUserStats: the five counters of the statistics endpoint. It never fails. */
  function GetUserStats(users: seq<User>): (s: UserStats)
    ensures s.totalUsers == |users|
    ensures s.activeUsers == CountWhere(users, IsActiveUser)
    ensures s.adminUsers == CountWhere(users, IsAdmin)
    ensures s.regularUsers == CountWhere(users, IsRegular)
    ensures s.inactiveUsers == s.totalUsers - s.activeUsers
    ensures s.inactiveUsers == CountWhere(users, IsInactiveUser)
    ensures s.adminUsers + s.regularUsers <= s.totalUsers
  {
    CountComplement(users, IsActiveUser, IsInactiveUser);
    CountDisjoint(users, IsAdmin, IsRegular);
    var total := |users|;
    var active := CountWhere(users, IsActiveUser);
    UserStats(total, active, CountWhere(users, IsAdmin), CountWhere(users, IsRegular), total - active)
  }

  class UserService {
    var users: seq<User>
    var nextId: nat
    /** bcrypt.CompareHashAndPassword(hash, password) == nil */
    const passwordMatches: (string, string) -> bool

    ghost predicate Valid()
      reads this
    {
      nextId > 0 && WellFormed(users, nextId)
    }

    constructor (passwordMatches: (string, string) -> bool)
      ensures Valid()
      ensures users == [] && this.passwordMatches == passwordMatches
    {
      users := [];
      nextId := 1;
      this.passwordMatches := passwordMatches;
    }

    /** GetUserByID: the row with that id, or "user not found". */
    function GetUserByID(id: nat): (r: Result<User>)
      reads this
      ensures r.Ok? ==> r.value in users && r.value.id == id
      ensures r.Err? <==> forall u :: u in users ==> u.id != id
      ensures r.Err? ==> r.error == UserNotFound
    {
      match IndexOfKey(users, UserId, id)
      case None => Err(UserNotFound)
      case Some(i) => Ok(users[i])
    }

    /** GetUserByEmail: the row with that email, or "user not found". */
    function GetUserByEmail(email: string): (r: Result<User>)
      reads this
      ensures r.Ok? ==> r.value in users && r.value.email == email
      ensures r.Err? <==> forall u :: u in users ==> u.email != email
      ensures r.Err? ==> r.error == UserNotFound
    {
      match IndexOfKey(users, UserEmail, email)
      case None => Err(UserNotFound)
      case Some(i) => Ok(users[i])
    }

    /** `WHERE email = ? AND id != ?` finds a row. */
    predicate EmailTakenByOther(email: string, id: nat)
      reads this
    {
      exists u :: u in users && u.email == email && u.id != id
    }

    /** CreateUser: refuses an email already registered, otherwise inserts an
        active user with the requested role. */
    method CreateUser(req: CreateUserRequest, passwordHash: string) returns (r: Result<User>)
      requires Valid()
      modifies this
      ensures Valid()
      ensures (exists u :: u in old(users) && u.email == req.email) ==>
        r == Err(EmailAlreadyExists) && users == old(users) && nextId == old(nextId)
      ensures (forall u :: u in old(users) ==> u.email != req.email) ==>
        && r == Ok(User(old(nextId), req.email, passwordHash, req.fullName, req.phone, req.role, true))
        && users == old(users) + [r.value]
    {
      if GetUserByEmail(req.email).Ok? {
        return Err(EmailAlreadyExists);
      }
      var user := User(nextId, req.email, passwordHash, req.fullName, req.phone, req.role, true);
      AppendWellFormed(users, nextId, user);
      users := users + [user];
      nextId := nextId + 1;
      r := Ok(user);
    }

    /** UpdateUser: partial update of one row. The email changes only when it
        is given, differs, and no other user has it; every other field only
        when given. */
    method UpdateUser(id: nat, req: UpdateUserRequest) returns (r: Result<User>)
      requires Valid()
      modifies this
      ensures Valid() && nextId == old(nextId)
      ensures old(GetUserByID(id)).Err? ==> r == Err(UserNotFound) && users == old(users)
      ensures old(GetUserByID(id)).Ok? ==>
        var u := old(GetUserByID(id)).value;
        if req.email != "" && req.email != u.email && old(EmailTakenByOther(req.email, id)) then
          r == Err(EmailAlreadyExists) && users == old(users)
        else
          && r.Ok?
          && r.value == User(u.id, KeepOrReplace(u.email, req.email), u.passwordHash,
                             KeepOrReplace(u.fullName, req.fullName), KeepOrReplace(u.phone, req.phone),
                             KeepOrReplace(u.role, req.role),
                             if req.isActive.Some? then req.isActive.value else u.isActive)
          && exists i :: 0 <= i < |old(users)| && old(users)[i] == u && users == old(users)[i := r.value]
    {
      var idx := IndexOfKey(users, UserId, id);
      if idx.None? {
        return Err(UserNotFound);
      }
      var i := idx.value;
      var user := users[i];
      if req.email != "" && req.email != user.email {
        if EmailTakenByOther(req.email, id) {
          return Err(EmailAlreadyExists);
        }
        user := user.(email := req.email);
      }
      if req.fullName != "" {
        user := user.(fullName := req.fullName);
      }
      if req.phone != "" {
        user := user.(phone := req.phone);
      }
      if req.role != "" {
        user := user.(role := req.role);
      }
      if req.isActive.Some? {
        user := user.(isActive := req.isActive.value);
      }
      ReplaceWellFormed(users, nextId, i, user);
      users := users[i := user];
      r := Ok(user);
    }

    /** DeleteUser: removes the row, except that the only admin left cannot be
        deleted. */
    method DeleteUser(id: nat) returns (r: Result<()>)
      requires Valid()
      modifies this
      ensures Valid() && nextId == old(nextId)
      ensures old(GetUserByID(id)).Err? ==> r == Err(UserNotFound) && users == old(users)
      ensures old(GetUserByID(id)).Ok? && IsAdmin(old(GetUserByID(id)).value) && CountWhere(old(users), IsAdmin) <= 1 ==>
        r == Err(LastAdmin) && users == old(users)
      ensures r.Ok? <==>
        old(GetUserByID(id)).Ok? && (!IsAdmin(old(GetUserByID(id)).value) || CountWhere(old(users), IsAdmin) > 1)
      ensures r.Ok? ==> exists i :: 0 <= i < |old(users)| && old(users)[i].id == id && users == RemoveAt(old(users), i)
      ensures CountWhere(old(users), IsAdmin) >= 1 ==> CountWhere(users, IsAdmin) >= 1
    {
      var idx := IndexOfKey(users, UserId, id);
      if idx.None? {
        return Err(UserNotFound);
      }
      var i := idx.value;
      if IsAdmin(users[i]) && CountWhere(users, IsAdmin) <= 1 {
        return Err(LastAdmin);
      }
      CountRemoveAt(users, i, IsAdmin);
      RemoveWellFormed(users, nextId, i);
      users := RemoveAt(users, i);
      r := Ok(());
    }

    /** ChangeUserPassword: an administrator sets a new hash. */
    method ChangeUserPassword(id: nat, newHash: string) returns (r: Result<()>)
      requires Valid()
      modifies this
      ensures Valid() && nextId == old(nextId)
      ensures old(GetUserByID(id)).Err? ==> r == Err(UserNotFound) && users == old(users)
      ensures old(GetUserByID(id)).Ok? ==>
        && r.Ok?
        && exists i :: 0 <= i < |old(users)| && old(users)[i].id == id &&
             users == old(users)[i := old(users)[i].(passwordHash := newHash)]
    {
      var idx := IndexOfKey(users, UserId, id);
      if idx.None? {
        return Err(UserNotFound);
      }
      var i := idx.value;
      var user := users[i].(passwordHash := newHash);
      ReplaceWellFormed(users, nextId, i, user);
      users := users[i := user];
      r := Ok(());
    }

    /** UpdateMyProfile: the email rule of UpdateUser plus name and phone;
        role and active flag can never change this way. */
    method UpdateMyProfile(id: nat, req: UpdateMyProfileRequest) returns (r: Result<User>)
      requires Valid()
      modifies this
      ensures Valid() && nextId == old(nextId)
      ensures old(GetUserByID(id)).Err? ==> r == Err(UserNotFound) && users == old(users)
      ensures old(GetUserByID(id)).Ok? ==>
        var u := old(GetUserByID(id)).value;
        if req.email != "" && req.email != u.email && old(EmailTakenByOther(req.email, id)) then
          r == Err(EmailAlreadyExists) && users == old(users)
        else
          && r.Ok?
          && r.value == u.(email := KeepOrReplace(u.email, req.email),
                           fullName := KeepOrReplace(u.fullName, req.fullName),
                           phone := KeepOrReplace(u.phone, req.phone))
          && exists i :: 0 <= i < |old(users)| && old(users)[i] == u && users == old(users)[i := r.value]
      ensures r.Ok? ==> r.value.role == old(GetUserByID(id)).value.role
      ensures r.Ok? ==> r.value.isActive == old(GetUserByID(id)).value.isActive
    {
      var idx := IndexOfKey(users, UserId, id);
      if idx.None? {
        return Err(UserNotFound);
      }
      var i := idx.value;
      var user := users[i];
      if req.email != "" && req.email != user.email {
        if EmailTakenByOther(req.email, id) {
          return Err(EmailAlreadyExists);
        }
        user := user.(email := req.email);
      }
      if req.fullName != "" {
        user := user.(fullName := req.fullName);
      }
      if req.phone != "" {
        user := user.(phone := req.phone);
      }
      ReplaceWellFormed(users, nextId, i, user);
      users := users[i := user];
      r := Ok(user);
    }

    /** UpdateMyPassword: the old password must match the stored hash. */
    method UpdateMyPassword(id: nat, oldPassword: string, newHash: string) returns (r: Result<()>)
      requires Valid()
      modifies this
      ensures Valid() && nextId == old(nextId)
      ensures old(GetUserByID(id)).Err? ==> r == Err(UserNotFound) && users == old(users)
      ensures old(GetUserByID(id)).Ok? && !passwordMatches(old(GetUserByID(id)).value.passwordHash, oldPassword) ==>
        r == Err(OldPasswordIncorrect) && users == old(users)
      ensures old(GetUserByID(id)).Ok? && passwordMatches(old(GetUserByID(id)).value.passwordHash, oldPassword) ==>
        && r.Ok?
        && exists i :: 0 <= i < |old(users)| && old(users)[i].id == id &&
             users == old(users)[i := old(users)[i].(passwordHash := newHash)]
    {
      var idx := IndexOfKey(users, UserId, id);
      if idx.None? {
        return Err(UserNotFound);
      }
      var i := idx.value;
      if !passwordMatches(users[i].passwordHash, oldPassword) {
        return Err(OldPasswordIncorrect);
      }
      var user := users[i].(passwordHash := newHash);
      ReplaceWellFormed(users, nextId, i, user);
      users := users[i := user];
      r := Ok(());
    }
  }
}
