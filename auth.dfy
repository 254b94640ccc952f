/** server/src/controllers/authController.js: registration with its duplicate detection and
  * lower-casing, the login guard order, and the username change. The email, password and
  * username validators and the password comparison are parameters (`Checks`). */
module Auth {
  import opened Base
  import opened Text
  import opened Helpers

  datatype User = User(id: nat, email: string, password: string, username: string,
                       walletAddress: string, isActive: bool)

  /** The validators of server/src/utils/validators.js and the model's `comparePassword`
    * (whether a plain password matches the stored one). */
  datatype Checks = Checks(email: string -> bool, password: string -> bool, username: string -> bool,
                           passwordMatches: (string, string) -> bool)

  /** The field named in "User with this ... already exists". */
  datatype Field = EmailField | UsernameField | WalletField

  datatype AuthFailure =
    | InvalidEmail | InvalidPassword | InvalidUsername | InvalidWallet
    | Duplicate(field: Field)
    | MissingCredentials | BadCredentials | Deactivated
    | UsernameTaken
    | StoreFailed

  /** 401 for the two login refusals, 500 for a failed write, 400 for everything else. */
  function AuthStatus(f: AuthFailure): (code: int)
    ensures code == 401 <==> f == BadCredentials || f == Deactivated
    ensures code == 500 <==> f == StoreFailed
    ensures code == 400 || code == 401 || code == 500
  {
    match f
    case BadCredentials => 401
    case Deactivated => 401
    case StoreFailed => 500
    case _ => 400
  }

  datatype Registration = Registration(email: string, password: string, username: string, walletAddress: string)

  /** One clause of the `$or` query: the lower-cased email, the username as given, or the
    * lower-cased wallet. */
  predicate Conflicts(u: User, r: Registration) {
    u.email == ToLower(r.email) || u.username == r.username || u.walletAddress == ToLower(r.walletAddress)
  }

  /** `User.findOne(query)` and `User.findById`: the position of the first user the query
    * matches, none when no user does. */
  function FindFirst(users: seq<User>, query: User -> bool): (i: Option<nat>)
    ensures i.None? <==> forall j :: 0 <= j < |users| ==> !query(users[j])
    ensures i.Some? ==> i.value < |users| && query(users[i.value])
    ensures i.Some? ==> forall j :: 0 <= j < i.value ==> !query(users[j])
  {
    if users == [] then None
    else if query(users[0]) then Some(0)
    else
      var rest := users[1..];
      assert forall m :: 0 <= m < |rest| ==> rest[m] == users[m + 1];
      match FindFirst(rest, query)
      case None => None
      case Some(j) => Some(j + 1)
  }

  /** `{email}` */
  function HasEmail(email: string): User -> bool {
    (u: User) => u.email == email
  }

  /** `{_id}` */
  function HasId(id: nat): User -> bool {
    (u: User) => u.id == id
  }

  /** `{username, _id: {$ne: userId}}`: another user holding the username. */
  function HoldsUsername(username: string, userId: nat): User -> bool {
    (u: User) => u.username == username && u.id != userId
  }

  /** The `$or` query of registration. */
  function ConflictsWith(r: Registration): User -> bool {
    (u: User) => Conflicts(u, r)
  }

  /** `findOne` with the `$or` query: the first registered user that matches any clause. */
  function FindConflict(users: seq<User>, r: Registration): (i: Option<nat>)
    ensures i.None? <==> forall j :: 0 <= j < |users| ==> !Conflicts(users[j], r)
    ensures i.Some? ==> i.value < |users| && Conflicts(users[i.value], r)
    ensures i.Some? ==> forall j :: 0 <= j < i.value ==> !Conflicts(users[j], r)
  {
    FindFirst(users, ConflictsWith(r))
  }

  /** The field reported for the user found: the wallet wins over the username, the username
    * over the email, which is the fallback. */
  function DuplicateField(u: User, r: Registration): (f: Field)
    ensures f == WalletField <==> u.walletAddress == ToLower(r.walletAddress)
    ensures f == UsernameField <==> u.walletAddress != ToLower(r.walletAddress) && u.username == r.username
    ensures f == EmailField <==> u.walletAddress != ToLower(r.walletAddress) && u.username != r.username
  {
    if u.walletAddress == ToLower(r.walletAddress) then WalletField
    else if u.username == r.username then UsernameField
    else EmailField
  }

  /** Whether `u` holds the value of the registration's field `f`. */
  predicate Shares(u: User, r: Registration, f: Field) {
    match f
    case EmailField => u.email == ToLower(r.email)
    case UsernameField => u.username == r.username
    case WalletField => u.walletAddress == ToLower(r.walletAddress)
  }

  /** For a user the `$or` query found, the reported field is one that user really shares, and
    * no field of higher priority is shared. */
  lemma DuplicateFieldIsShared(u: User, r: Registration)
    requires Conflicts(u, r)
    ensures Shares(u, r, DuplicateField(u, r))
    ensures DuplicateField(u, r) != WalletField ==> !Shares(u, r, WalletField)
    ensures DuplicateField(u, r) == EmailField ==> !Shares(u, r, UsernameField)
  {}

  /** The four validators of `register`. */
  predicate FieldsValid(r: Registration, checks: Checks) {
    checks.email(r.email) && checks.password(r.password) && checks.username(r.username)
    && ValidateWalletAddress(r.walletAddress)
  }

  /** `register`: email, password, username and wallet are validated in that order and the first
    * failure decides; then any user sharing the lower-cased email, the username or the
    * lower-cased wallet blocks registration, with the field chosen from the first such user;
    * then a failed write is a 500; otherwise the new user has the next id, the email and wallet
    * lower-cased and the username and password as given. */
  function RegisterOutcome(users: seq<User>, nextId: nat, r: Registration, checks: Checks, storeUp: bool)
    : (out: Result<User, AuthFailure>)
    ensures !checks.email(r.email) ==> out == Err(InvalidEmail)
    ensures checks.email(r.email) && !checks.password(r.password) ==> out == Err(InvalidPassword)
    ensures checks.email(r.email) && checks.password(r.password) && !checks.username(r.username) ==>
      out == Err(InvalidUsername)
    ensures (checks.email(r.email) && checks.password(r.password) && checks.username(r.username)
             && !ValidateWalletAddress(r.walletAddress)) ==> out == Err(InvalidWallet)
    ensures out.Err? && out.error.Duplicate? ==>
      FieldsValid(r, checks) && FindConflict(users, r).Some?
      && out.error.field == DuplicateField(users[FindConflict(users, r).value], r)
    ensures FieldsValid(r, checks) && FindConflict(users, r).Some? ==>
      out == Err(Duplicate(DuplicateField(users[FindConflict(users, r).value], r)))
    ensures out == Err(StoreFailed) <==>
      FieldsValid(r, checks) && (forall j :: 0 <= j < |users| ==> !Conflicts(users[j], r)) && !storeUp
    ensures out.Ok? <==>
      FieldsValid(r, checks) && (forall j :: 0 <= j < |users| ==> !Conflicts(users[j], r)) && storeUp
    ensures out.Ok? ==> out.value == User(nextId, ToLower(r.email), r.password, r.username, ToLower(r.walletAddress), true)
  {
    if !checks.email(r.email) then Err(InvalidEmail)
    else if !checks.password(r.password) then Err(InvalidPassword)
    else if !checks.username(r.username) then Err(InvalidUsername)
    else if !ValidateWalletAddress(r.walletAddress) then Err(InvalidWallet)
    else match FindConflict(users, r)
      case Some(i) => Err(Duplicate(DuplicateField(users[i], r)))
      case None =>
        if !storeUp then Err(StoreFailed)
        else Ok(User(nextId, ToLower(r.email), r.password, r.username, ToLower(r.walletAddress), true))
  }

  /** `!email || !password` is false: both are present and non-empty. */
  predicate CredentialsGiven(email: Option<string>, password: Option<string>) {
    email.Some? && email.value != "" && password.Some? && password.value != ""
  }

  /** `login`: a missing or empty email or password is a 400; an unknown email and a wrong
    * password both give the same 401; a deactivated account is refused only after its password
    * matched; an active account whose password matches logs in. */
  function Login(users: seq<User>, email: Option<string>, password: Option<string>, checks: Checks)
    : (out: Result<User, AuthFailure>)
    ensures !CredentialsGiven(email, password) <==> out == Err(MissingCredentials)
    ensures CredentialsGiven(email, password) ==>
      var i := FindFirst(users, HasEmail(ToLower(email.value)));
      && (out == Err(BadCredentials) <==>
            i.None? || !checks.passwordMatches(password.value, users[i.value].password))
      && (out == Err(Deactivated) <==>
            i.Some? && checks.passwordMatches(password.value, users[i.value].password) && !users[i.value].isActive)
      && (out.Ok? <==>
            i.Some? && checks.passwordMatches(password.value, users[i.value].password) && users[i.value].isActive)
      && (out.Ok? ==> out == Ok(users[i.value]))
    ensures out.Ok? ==>
      && out.value in users && out.value.email == ToLower(email.value) && out.value.isActive
      && checks.passwordMatches(password.value, out.value.password)
  {
    if !CredentialsGiven(email, password) then Err(MissingCredentials)
    else match FindFirst(users, HasEmail(ToLower(email.value)))
      case None => Err(BadCredentials)
      case Some(i) =>
        if !checks.passwordMatches(password.value, users[i].password) then Err(BadCredentials)
        else if !users[i].isActive then Err(Deactivated)
        else Ok(users[i])
  }

  /** A user who has just registered can log in with the same email, in any letter case that
    * lower-cases to the same string, and the same password (given that a password matches what
    * was stored for it). */
  lemma RegisteredUserCanLogIn(users: seq<User>, nextId: nat, r: Registration, checks: Checks, email: string)
    requires RegisterOutcome(users, nextId, r, checks, true).Ok?
    requires checks.passwordMatches(r.password, r.password)
    requires ToLower(email) == ToLower(r.email) && email != "" && r.password != ""
    ensures var u := RegisterOutcome(users, nextId, r, checks, true).value;
      Login(users + [u], Some(email), Some(r.password), checks) == Ok(u)
  {
    var u := RegisterOutcome(users, nextId, r, checks, true).value;
    var all := users + [u];
    forall j | 0 <= j < |users| ensures !HasEmail(ToLower(email))(users[j]) {
      assert !Conflicts(users[j], r);
    }
    assert FindFirst(all, HasEmail(ToLower(email))) == Some(|users|) by {
      FindFirstAfter(users, u, HasEmail(ToLower(email)));
    }
  }

  /** A user appended behind users the query does not match is the one it finds. */
  lemma {:induction false} FindFirstAfter(users: seq<User>, u: User, query: User -> bool)
    requires forall j :: 0 <= j < |users| ==> !query(users[j])
    requires query(u)
    ensures FindFirst(users + [u], query) == Some(|users|)
  {
    if users != [] {
      assert (users + [u])[1..] == users[1..] + [u];
      FindFirstAfter(users[1..], u, query);
    }
  }

  /** Ids below `nextId` and distinct, emails and wallets stored lower-case, and no two users
    * sharing an email, a username or a wallet. */
  predicate RegistryInvariant(users: seq<User>, nextId: nat) {
    && (forall i :: 0 <= i < |users| ==> users[i].id < nextId)
    && (forall i :: 0 <= i < |users| ==> IsLower(users[i].email) && IsLower(users[i].walletAddress))
    && (forall i, j :: 0 <= i < j < |users| ==>
          && users[i].id != users[j].id
          && users[i].email != users[j].email
          && users[i].username != users[j].username
          && users[i].walletAddress != users[j].walletAddress)
  }

  /** Renaming the user at `i` to a username no other user holds keeps the invariant, and changes
    * exactly the users with that user's id, since ids are distinct. */
  lemma RenameKeepsInvariant(users: seq<User>, nextId: nat, i: nat, username: string)
    requires RegistryInvariant(users, nextId) && i < |users|
    requires forall j :: 0 <= j < |users| ==> !(users[j].username == username && users[j].id != users[i].id)
    ensures var renamed := users[i := users[i].(username := username)];
      && RegistryInvariant(renamed, nextId)
      && forall j :: 0 <= j < |users| ==>
           renamed[j] == if users[j].id == users[i].id then users[j].(username := username) else users[j]
  {
    var renamed := users[i := users[i].(username := username)];
    forall j | 0 <= j < |users| && j != i ensures users[j].id != users[i].id {
      if j < i {
        assert users[j].id != users[i].id;
      } else {
        assert users[i].id != users[j].id;
      }
    }
  }

  /** The users, with the rules registration keeps: ids below `nextId` and distinct, emails and
    * wallets stored lower-case, and no two users sharing an email, a username or a wallet. */
  class UserRegistry {
    var users: seq<User>
    var nextId: nat

    ghost predicate Valid()
      reads this
    {
      RegistryInvariant(users, nextId)
    }

    constructor()
      ensures users == [] && nextId == 0 && Valid()
    {
      users := [];
      nextId := 0;
    }

    /** `register`: the four validators in order, then the `$or` lookup, whose hit is reported
      * under a field chosen by reassigning it (email, then username, then wallet); on success
      * the new user is appended, and on any refusal nothing changes. */
    method Register(r: Registration, checks: Checks, storeUp: bool) returns (out: Result<User, AuthFailure>)
      requires Valid()
      modifies this
      ensures Valid()
      ensures out == RegisterOutcome(old(users), old(nextId), r, checks, storeUp)
      ensures out.Ok? ==> users == old(users) + [out.value] && nextId == old(nextId) + 1
      ensures out.Err? ==> users == old(users) && nextId == old(nextId)
    {
      if !checks.email(r.email) {
        return Err(InvalidEmail);
      }
      if !checks.password(r.password) {
        return Err(InvalidPassword);
      }
      if !checks.username(r.username) {
        return Err(InvalidUsername);
      }
      if !ValidateWalletAddress(r.walletAddress) {
        return Err(InvalidWallet);
      }
      var found := FindConflict(users, r);
      if found.Some? {
        var existing := users[found.value];
        var field := EmailField;
        if existing.username == r.username {
          field := UsernameField;
        }
        if existing.walletAddress == ToLower(r.walletAddress) {
          field := WalletField;
        }
        return Err(Duplicate(field));
      }
      if !storeUp {
        return Err(StoreFailed);
      }
      var u := User(nextId, ToLower(r.email), r.password, r.username, ToLower(r.walletAddress), true);
      ToLowerIsLower(r.email);
      ToLowerIsLower(r.walletAddress);
      users := users + [u];
      nextId := nextId + 1;
      out := Ok(u);
    }

    /** `updateProfile` for the signed-in user `userId`: a non-empty username must pass the
      * validator, and a username another user holds is refused; otherwise only that user's
      * username changes. A user id that is not registered finds no user and changes nothing. */
    method UpdateProfile(userId: nat, username: string, checks: Checks) returns (out: Result<Option<User>, AuthFailure>)
      requires Valid()
      modifies this
      ensures Valid()
      ensures out == Err(InvalidUsername) <==> username != "" && !checks.username(username)
      ensures out == Err(UsernameTaken) <==>
        (username == "" || checks.username(username)) && FindFirst(old(users), HoldsUsername(username, userId)).Some?
      ensures out.Ok? <==>
        (username == "" || checks.username(username)) && FindFirst(old(users), HoldsUsername(username, userId)).None?
      ensures out.Err? ==> users == old(users)
      ensures out.Ok? ==> |users| == |old(users)| && forall j :: 0 <= j < |users| ==>
        users[j] == if old(users)[j].id == userId then old(users)[j].(username := username) else old(users)[j]
      ensures out.Ok? ==> (out.value.Some? <==> FindFirst(old(users), HasId(userId)).Some?)
      ensures out.Ok? && out.value.Some? ==> out.value.value.id == userId && out.value.value.username == username
      ensures nextId == old(nextId)
    {
      if username != "" && !checks.username(username) {
        out := Err(InvalidUsername);
      } else if FindFirst(users, HoldsUsername(username, userId)).Some? {
        out := Err(UsernameTaken);
      } else {
        match FindFirst(users, HasId(userId))
        case None =>
          out := Ok(None);
        case Some(i) =>
          RenameKeepsInvariant(users, nextId, i, username);
          var updated := users[i].(username := username);
          users := users[i := updated];
          out := Ok(Some(updated));
      }
    }
  }
}
