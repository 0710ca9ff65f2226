/**
 * The session of the blog: the fixed account table, log-in, sign-up, log-out and the
 * start-up restore of a saved session from `localStorage`. The provider's state is the
 * signed-in user, the loading flag and the browser's key-value storage. The simulated
 * delay, the toasts and the JSON text of the stored session are not modelled; a stored
 * value is the result of parsing it.
 */
module Auth {
  import opened Wrappers
  import opened JsArray
  import opened JsString

  datatype Role = AdminRole | AuthorRole | UserRole

  /** The signed-in user as the pages see it (no password). */
  datatype User = User(id: string, name: string, email: string, role: Role, avatar: Option<string>)

  /** An entry of the account table. */
  datatype Account = Account(id: string, name: string, email: string, password: string, role: Role, avatar: string)

  /** `const { password, ...userWithoutPassword } = account`. */
  function WithoutPassword(a: Account): (u: User)
    ensures u.id == a.id && u.name == a.name && u.email == a.email && u.role == a.role
    ensures u.avatar == Some(a.avatar)
  {
    User(a.id, a.name, a.email, a.role, Some(a.avatar))
  }

  const MockUsers: seq<Account> := [
    Account("1", "John Doe", "john@example.com", "password", AdminRole, "https://i.pravatar.cc/150?u=john"),
    Account("2", "Jane Smith", "jane@example.com", "password", AuthorRole, "https://i.pravatar.cc/150?u=jane"),
    Account("3", "Admin User", "admin@example.com", "admin123", AdminRole, "https://i.pravatar.cc/150?u=admin")
  ]

  const SessionKey := "tech_blog_user"
  const AvatarPrefix := "https://i.pravatar.cc/150?u="

  /**
   * What `localStorage` holds under a key, seen through `JSON.parse`: the text of a
   * value (`Json(None)` is the text `null`), the empty string, or text that does not parse.
   */
  datatype Stored = Json(value: Option<User>) | EmptyText | Unparseable

  datatype AuthError = InvalidCredentials | EmailTaken

  predicate Credentials(email: string, password: string, a: Account)
  {
    a.email == email && a.password == password
  }

  /** `MOCK_USERS.find(u => u.email === email && u.password === password)`. */
  function FindAccount(email: string, password: string): (r: Option<Account>)
    ensures r.None? <==> forall i :: 0 <= i < |MockUsers| ==> !Credentials(email, password, MockUsers[i])
    ensures r.Some? ==> exists i :: 0 <= i < |MockUsers| && MockUsers[i] == r.value && Credentials(email, password, r.value)
                                    && forall j :: 0 <= j < i ==> !Credentials(email, password, MockUsers[j])
  {
    Find(MockUsers, (a: Account) => Credentials(email, password, a))
  }

  /** `MOCK_USERS.some(u => u.email === email)`. */
  function IsEmailTaken(email: string): (b: bool)
    ensures b <==> exists i :: 0 <= i < |MockUsers| && MockUsers[i].email == email
  {
    Exists(MockUsers, (a: Account) => a.email == email)
  }

  /** The user `signup` creates: the next id after the table, role `user`, an avatar keyed by the e-mail. */
  function NewUser(name: string, email: string): (u: User)
    ensures u.id == "4" && u.name == name && u.email == email && u.role == UserRole
    ensures u.avatar == Some(AvatarPrefix + EncodeUriComponent(email))
  {
    assert NatToString(|MockUsers| + 1) == "4";
    User(NatToString(|MockUsers| + 1), name, email, UserRole, Some(AvatarPrefix + EncodeUriComponent(email)))
  }

  class AuthProvider {
    var user: Option<User>
    var isLoading: bool
    var storage: map<string, Stored>

    /** The provider's own invariant: a signed-in user is the one saved under the session key. */
    predicate Valid()
      reads this
    {
      user.Some? ==> SessionKey in storage && storage[SessionKey] == Json(user)
    }

    /** `isAuthenticated: !!user`. */
    predicate IsAuthenticated()
      reads this
    {
      user.Some?
    }

    /** The provider mounts with no user, loading, over whatever the browser has stored. */
    constructor(saved: map<string, Stored>)
      ensures Valid()
      ensures user == None && isLoading && storage == saved
    {
      user := None;
      isLoading := true;
      storage := saved;
    }

    /** The start-up effect: a parseable saved session becomes the user, an unparseable one is removed. */
    method RestoreSession()
      requires Valid()
      modifies this
      ensures Valid()
      ensures !isLoading
      ensures SessionKey !in old(storage) || old(storage)[SessionKey] == EmptyText ==>
                user == old(user) && storage == old(storage)
      ensures SessionKey in old(storage) && old(storage)[SessionKey].Json? ==>
                user == old(storage)[SessionKey].value && storage == old(storage)
      ensures SessionKey in old(storage) && old(storage)[SessionKey] == Unparseable ==>
                user == old(user) && storage == old(storage) - {SessionKey}
    {
      if SessionKey in storage && storage[SessionKey] != EmptyText {
        match storage[SessionKey]
        case Json(value) =>
          user := value;
        case Unparseable =>
          storage := storage - {SessionKey};
      }
      isLoading := false;
    }

    /** `login(email, password)`: signs in the first matching account (without its password) or throws. */
    method Login(email: string, password: string) returns (outcome: Outcome<AuthError>)
      requires Valid()
      modifies this
      ensures Valid()
      ensures FindAccount(email, password).Some? ==>
                && outcome == Pass
                && user == Some(WithoutPassword(FindAccount(email, password).value))
                && storage == old(storage)[SessionKey := Json(user)]
                && !isLoading
      ensures FindAccount(email, password).None? ==>
                && outcome == Fail(InvalidCredentials)
                && user == old(user) && storage == old(storage)
                && isLoading
    {
      isLoading := true;
      var matched := FindAccount(email, password);
      if matched.Some? {
        user := Some(WithoutPassword(matched.value));
        storage := storage[SessionKey := Json(user)];
      } else {
        return Fail(InvalidCredentials);
      }
      isLoading := false;
      outcome := Pass;
    }

    /** `signup(name, email, password)`: refuses a known e-mail, else signs in a new `user`-role account. */
    method Signup(name: string, email: string, password: string) returns (outcome: Outcome<AuthError>)
      requires Valid()
      modifies this
      ensures Valid()
      ensures !isLoading
      ensures IsEmailTaken(email) ==>
                outcome == Fail(EmailTaken) && user == old(user) && storage == old(storage)
      ensures !IsEmailTaken(email) ==>
                && outcome == Pass
                && user == Some(NewUser(name, email))
                && storage == old(storage)[SessionKey := Json(user)]
    {
      isLoading := true;
      if IsEmailTaken(email) {
        isLoading := false;
        return Fail(EmailTaken);
      }
      var newUser := NewUser(name, email);
      user := Some(newUser);
      storage := storage[SessionKey := Json(user)];
      isLoading := false;
      outcome := Pass;
    }

    /** `logout()`: forgets the user and the saved session; the loading flag is untouched. */
    method Logout()
      modifies this
      ensures Valid()
      ensures user == None && storage == old(storage) - {SessionKey} && isLoading == old(isLoading)
    {
      user := None;
      storage := storage - {SessionKey};
    }
  }

  /** Each table entry signs in with its own e-mail and password (the e-mails are distinct). */
  lemma SeedCredentialsLogIn(k: nat)
    requires k < |MockUsers|
    ensures FindAccount(MockUsers[k].email, MockUsers[k].password) == Some(MockUsers[k])
  {
    assert |MockUsers[0].email| == 16 && |MockUsers[1].email| == 16 && |MockUsers[2].email| == 17;
    assert MockUsers[0].email[1] == 'o' && MockUsers[1].email[1] == 'a';
  }

  /** `login("admin@example.com", "admin123")` signs in user '3' with the admin role. */
  lemma AdminLogIn()
    ensures var r := FindAccount("admin@example.com", "admin123");
            r.Some? && WithoutPassword(r.value).id == "3" && WithoutPassword(r.value).role == AdminRole
  {
    SeedCredentialsLogIn(2);
  }

  /** Sign-up does not add to the table: an e-mail sign-up accepts can never log in. */
  lemma SignedUpCannotLogIn(email: string, password: string)
    requires !IsEmailTaken(email)
    ensures FindAccount(email, password).None?
  {
  }

  /** The avatar key of a new user `local@domain` escapes the `@` as `%40` and keeps the rest. */
  lemma AvatarEscapesAt(local: string, domain: string)
    requires forall i :: 0 <= i < |local| ==> IsUriUnreserved(local[i])
    requires forall i :: 0 <= i < |domain| ==> IsUriUnreserved(domain[i])
    ensures EncodeUriComponent(local + "@" + domain) == local + "%40" + domain
  {
    assert EncodeUriComponent(local + "@" + domain) == EncodeUriComponent(local + "@") + EncodeUriComponent(domain) by {
      EncodeUriComponentAppend(local + "@", domain);
    }
    assert EncodeUriComponent(local + "@") == local + "%40" by {
      EncodeUriComponentAppend(local, "@");
      EncodeUriComponentIdentity(local);
      EncodeAt();
    }
    assert EncodeUriComponent(domain) == domain by {
      EncodeUriComponentIdentity(domain);
    }
  }

  /**
   * A fresh session: signing up with a new e-mail succeeds, logging in with those
   * credentials then fails, and signing up again with the same e-mail succeeds again.
   */
  method SignupThenLogin(name: string, email: string, password: string) returns (first: bool, login: bool, second: bool)
    requires !IsEmailTaken(email)
    ensures first && !login && second
  {
    var provider := new AuthProvider(map[]);
    provider.RestoreSession();
    var outcome := provider.Signup(name, email, password);
    first := outcome.Pass?;
    SignedUpCannotLogIn(email, password);
    outcome := provider.Login(email, password);
    login := outcome.Pass?;
    outcome := provider.Signup(name, email, password);
    second := outcome.Pass?;
  }
}
