/** The user accounts: the bean-validation constraints of the registration form, the
    user service (normalised registration with duplicate rejection, lookups), the login
    lookup of MyUserDetailsService, and the registration controller's decision. The
    password encoder is a parameter. */
module Users {
  import opened Common
  import opened Entities
  import opened JavaText

  // ---------------------------------------------------------------- UserDTO

  /** The registration form; every field may be null. */
  datatype UserDTO = UserDTO(id: Option<int>, username: Option<string>, password: Option<string>,
                             confirmPassword: Option<string>)

  /** The six constraints of the form; each violation is reported with the property
      path and the message of its rule. */
  datatype Rule =
    | UsernameRequired | UsernameSize
    | PasswordRequired | PasswordSize | PasswordPattern
    | ConfirmRequired

  /** The property path a violation of the rule is reported under. */
  function Field(rule: Rule): string
  {
    match rule
    case UsernameRequired | UsernameSize => "username"
    case PasswordRequired | PasswordSize | PasswordPattern => "password"
    case ConfirmRequired => "confirmPassword"
  }

  /** The message of the rule's annotation. */
  function Message(rule: Rule): string
  {
    match rule
    case UsernameRequired => "Username is required"
    case UsernameSize => "Username must be between 3 and 50 characters"
    case PasswordRequired => "Password is required"
    case PasswordSize => "Password must be between 8 and 72 characters"
    case PasswordPattern => "Password must contain at least one letter and one number"
    case ConfirmRequired => "Confirm password is required"
  }

  /** @NotBlank: not null, and some char is not trimmable, so that something is left
      after trimming (NotBlankIsTrim). */
  predicate NotBlank(s: Option<string>)
  {
    s.Some? && exists i :: 0 <= i < |s.value| && !IsTrimmed(s.value[i])
  }

  /** The non-blank test is Hibernate's: the value is non-null and trims to a non-empty
      string. */
  lemma NotBlankIsTrim(s: string)
    ensures NotBlank(Some(s)) <==> Trim(s) != []
  {
    var st := TrimFrom(s, 0);
    var len := TrimTo(s, st, |s|);
    if i :| 0 <= i < |s| && !IsTrimmed(s[i]) {
      assert st <= i < len;
    }
    if Trim(s) != [] {
      assert !IsTrimmed(s[st]);
    }
  }

  /** @Size(min, max): null is valid, otherwise the length is within the bounds. */
  predicate SizeWithin(s: Option<string>, min: nat, max: nat)
  {
    s.None? || min <= |s.value| <= max
  }

  /** The chars a regular-expression '.' does not match. */
  predicate IsLineTerminator(c: char)
  {
    c == '\n' || c == '\r' || c == '\U{85}' || c == '\U{2028}' || c == '\U{2029}'
  }

  predicate IsAsciiLetter(c: char)
  {
    'A' <= c <= 'Z' || 'a' <= c <= 'z'
  }

  predicate IsAsciiDigit(c: char)
  {
    '0' <= c <= '9'
  }

  /** The whole value matches ^(?=.*[A-Za-z])(?=.*\d).+$: it is non-empty, no char is a
      line terminator (which '.' would not cross), and it holds a letter and a digit. */
  predicate MatchesPasswordPattern(s: string)
  {
    |s| > 0
    && (forall i :: 0 <= i < |s| ==> !IsLineTerminator(s[i]))
    && (exists i :: 0 <= i < |s| && IsAsciiLetter(s[i]))
    && (exists i :: 0 <= i < |s| && IsAsciiDigit(s[i]))
  }

  /** @Pattern: null is valid. */
  predicate PatternHolds(s: Option<string>)
  {
    s.None? || MatchesPasswordPattern(s.value)
  }

  /** The constraint violations of the form, as the validator reports them. The two
      passwords are not compared here. */
  function Violations(d: UserDTO): set<Rule>
  {
    (if NotBlank(d.username) then {} else {UsernameRequired})
    + (if SizeWithin(d.username, 3, 50) then {} else {UsernameSize})
    + (if NotBlank(d.password) then {} else {PasswordRequired})
    + (if SizeWithin(d.password, 8, 72) then {} else {PasswordSize})
    + (if PatternHolds(d.password) then {} else {PasswordPattern})
    + (if NotBlank(d.confirmPassword) then {} else {ConfirmRequired})
  }

  /** Each failed constraint is reported, and only those. */
  lemma ViolationMembers(d: UserDTO)
    ensures UsernameRequired in Violations(d) <==> !NotBlank(d.username)
    ensures UsernameSize in Violations(d) <==> !SizeWithin(d.username, 3, 50)
    ensures PasswordRequired in Violations(d) <==> !NotBlank(d.password)
    ensures PasswordSize in Violations(d) <==> !SizeWithin(d.password, 8, 72)
    ensures PasswordPattern in Violations(d) <==> !PatternHolds(d.password)
    ensures ConfirmRequired in Violations(d) <==> !NotBlank(d.confirmPassword)
  {
  }

  /** A form is valid exactly when the username is non-blank with 3 to 50 chars, the
      password is non-blank with 8 to 72 chars, one line, a letter and a digit, and the
      confirmation is non-blank, whatever it says. */
  lemma ValidIff(d: UserDTO)
    ensures Violations(d) == {} <==>
      NotBlank(d.username) && 3 <= |d.username.value| <= 50
      && NotBlank(d.password) && 8 <= |d.password.value| <= 72 && MatchesPasswordPattern(d.password.value)
      && NotBlank(d.confirmPassword)
  {
    ViolationMembers(d);
  }

  /** A word that neither starts nor ends with a blank is not blank. */
  lemma WordNotBlank(s: string)
    requires s != [] && !IsTrimmed(s[0])
    ensures NotBlank(Some(s))
  {
  }

  /** The validator never compares the two passwords: any non-blank confirmation gives
      the same violations as any other. */
  lemma ConfirmationNotCompared(d: UserDTO, other: string)
    requires NotBlank(d.confirmPassword) && NotBlank(Some(other))
    ensures Violations(d.(confirmPassword := Some(other))) == Violations(d)
  {
  }

  /** With both password fields acceptable, only the username constraints report. */
  lemma PasswordFieldsClean(d: UserDTO)
    requires NotBlank(d.password) && SizeWithin(d.password, 8, 72) && PatternHolds(d.password)
    requires NotBlank(d.confirmPassword)
    ensures Violations(d)
         == (if NotBlank(d.username) then {} else {UsernameRequired})
            + (if SizeWithin(d.username, 3, 50) then {} else {UsernameSize})
  {
  }

  /** A password made only of digits, or only of letters, breaks the pattern. */
  lemma SingleClassPasswordRefused(s: string)
    requires (forall i :: 0 <= i < |s| ==> IsAsciiDigit(s[i])) || (forall i :: 0 <= i < |s| ==> IsAsciiLetter(s[i]))
    ensures !MatchesPasswordPattern(s)
  {
  }

  // ---------------------------------------------------------------- UserService

  /** Usernames are stored and looked up trimmed and lower-cased. */
  function Normalise(username: string): (r: string)
    ensures |r| <= |username|
  {
    TrimShape(username);
    ToLower(Trim(username))
  }

  /** Lower-casing neither adds nor removes trimmable chars at the ends. */
  lemma LowerKeepsTrimmed(t: string)
    requires Trim(t) == t
    ensures Trim(ToLower(t)) == ToLower(t)
  {
    TrimShape(t);
    var l := ToLower(t);
    if l != [] {
      assert l[0] == LowerChar(t[0]) && l[|l| - 1] == LowerChar(t[|t| - 1]);
      TrimUnchanged(l);
    }
  }

  /** Normalising a normalised name changes nothing, so a stored name is found by
      itself and by every spelling that differs only in case or surrounding blanks. */
  lemma NormaliseIdempotent(username: string)
    ensures Normalise(Normalise(username)) == Normalise(username)
  {
    var t := Trim(username);
    TrimShape(username);
    LowerKeepsTrimmed(t);
    var l := ToLower(t);
    assert ToLower(l) == l;
  }

  /** findByUsername: the first stored user with exactly that name. */
  function FindByUsername(users: seq<User>, name: string): (r: Option<User>)
    ensures r.Some? ==> r.value in users && r.value.username == name
    ensures r.None? <==> forall k :: 0 <= k < |users| ==> users[k].username != name
  {
    if users == [] then None
    else if users[0].username == name then Some(users[0])
    else FindByUsername(users[1..], name)
  }

  /** usernameExists: the lookup finds someone. */
  predicate UsernameExists(users: seq<User>, name: string)
  {
    FindByUsername(users, name).Some?
  }

  /** A name is taken exactly when a stored user carries it. */
  lemma UsernameExistsIff(users: seq<User>, name: string)
    ensures UsernameExists(users, name) <==> exists u :: u in users && u.username == name
  {
    if exists u :: u in users && u.username == name {
      var u :| u in users && u.username == name;
      var k :| 0 <= k < |users| && users[k] == u;
    }
  }

  /** A lookup that found nothing before a user is appended finds that user after. */
  lemma {:induction false} FindAppended(users: seq<User>, u: User)
    requires FindByUsername(users, u.username).None?
    ensures FindByUsername(users + [u], u.username) == Some(u)
  {
    if users != [] {
      assert (users + [u])[1..] == users[1..] + [u];
      FindAppended(users[1..], u);
    }
  }

  /** registerUser: the normalised name must be free; the user is saved with the
      encoder's output for the raw password and the id the store gives it. A null name
      fails on trim, an encoder failure is passed on. */
  function RegisterSpec(users: seq<User>, d: UserDTO, encode: Option<string> -> Result<string>,
                        id: int): (r: Result<User>)
  {
    if d.username.None? then Throw(NullPointer)
    else
      var name := Normalise(d.username.value);
      if FindByUsername(users, name).Some? then Throw(IllegalArgument("Username already exists"))
      else match encode(d.password)
        case Throw(e) => Throw(e)
        case Ok(hash) => Ok(User(id, name, hash))
  }

  /** The user store of the service. */
  class UserStore {
    var users: seq<User>

    constructor ()
      ensures users == []
    {
      users := [];
    }

    /** registerUser: on success the new user is appended; on an exception nothing is
        saved. */
    method RegisterUser(d: UserDTO, encode: Option<string> -> Result<string>, id: int) returns (r: Result<User>)
      modifies this`users
      ensures r == RegisterSpec(old(users), d, encode, id)
      ensures users == if r.Ok? then old(users) + [r.value] else old(users)
    {
      if d.username.None? {
        return Throw(NullPointer);
      }
      var name := Normalise(d.username.value);
      var existing := FindByUsername(users, name);
      if existing.Some? {
        return Throw(IllegalArgument("Username already exists"));
      }
      var hash := encode(d.password);
      if hash.Throw? {
        return Throw(hash.exception);
      }
      var created := User(id, name, hash.value);
      users := users + [created];
      r := Ok(created);
    }
  }

  /** A registration that succeeds stores the normalised name with the encoder's output;
      afterwards the name is taken, and registering it again, in any spelling that
      normalises the same, is refused as a duplicate. */
  lemma RegisterThenDuplicate(users: seq<User>, d: UserDTO, d2: UserDTO, encode: Option<string> -> Result<string>,
                              id: int, id2: int)
    requires RegisterSpec(users, d, encode, id).Ok?
    requires d2.username.Some? && Normalise(d2.username.value) == Normalise(d.username.value)
    ensures var u := RegisterSpec(users, d, encode, id).value;
      u.username == Normalise(d.username.value) && encode(d.password) == Ok(u.password) && u.id == id
      && UsernameExists(users + [u], u.username)
      && RegisterSpec(users + [u], d2, encode, id2) == Throw(IllegalArgument("Username already exists"))
  {
    var u := RegisterSpec(users, d, encode, id).value;
    FindAppended(users, u);
  }

  // ---------------------------------------------------------------- MyUserDetailsService

  /** loadUserByUsername: the normalised name is looked up once; a missing user fails
      with a message naming the name as given. */
  function LoadUserByUsername(users: seq<User>, username: string): (r: Result<User>)
    ensures r.Ok? <==> UsernameExists(users, Normalise(username))
    ensures r.Ok? ==> r.value in users && r.value.username == Normalise(username)
    ensures r.Throw? ==>
      r.exception.UsernameNotFound? && |username| <= |r.exception.message|
      && r.exception.message[|r.exception.message| - |username|..] == username
  {
    var found := FindByUsername(users, Normalise(username));
    if found.None? then Throw(UsernameNotFound("User not found with username: " + username))
    else Ok(found.value)
  }

  /** A user registered under any spelling logs in under any spelling with the same
      normalised form, and gets back exactly the stored user. */
  lemma RegisterThenLoad(users: seq<User>, d: UserDTO, encode: Option<string> -> Result<string>, id: int,
                         login: string)
    requires RegisterSpec(users, d, encode, id).Ok?
    requires Normalise(login) == Normalise(d.username.value)
    ensures LoadUserByUsername(users + [RegisterSpec(users, d, encode, id).value], login)
         == Ok(RegisterSpec(users, d, encode, id).value)
  {
    var u := RegisterSpec(users, d, encode, id).value;
    var name := Normalise(d.username.value);
    assert FindByUsername(users, name).None? && u.username == name;
    FindAppended(users, u);
    assert FindByUsername(users + [u], Normalise(login)) == Some(u);
  }

  // ---------------------------------------------------------------- RegistrationController

  const FixFieldsError := "Please fix the highlighted fields"
  const MismatchError := "Passwords do not match"
  const GenericError := "An error occurred during registration. Please try again."
  const SuccessMessage := "Registration successful! Please log in."

  /** The register view with its error, or the login page with the success message. */
  datatype RegistrationView = RegisterPage(error: string) | RedirectToLogin(flash: string)

  /** showRegistrationForm: the register view with an empty form. */
  function ShowRegistrationForm(): (form: UserDTO)
    ensures form.username.None? && form.password.None? && form.confirmPassword.None?
  {
    UserDTO(None, None, None, None)
  }

  /** The empty form cannot be submitted as it is: all three fields are reported as
      required. */
  lemma EmptyFormRefused()
    ensures var v := Violations(ShowRegistrationForm());
      UsernameRequired in v && PasswordRequired in v && ConfirmRequired in v
  {
  }

  /** registerUser: the page and the stored users after the submission. Binding errors
      come first, then the password comparison, then the service, whose
      IllegalArgumentException message is shown as it is and whose other exceptions give
      the generic message. */
  function RegistrationSpec(users: seq<User>, d: UserDTO, encode: Option<string> -> Result<string>,
                            id: int): (r: (RegistrationView, seq<User>))
  {
    if Violations(d) != {} then (RegisterPage(FixFieldsError), users)
    else if d.password.None? then (RegisterPage(GenericError), users)
    else if d.confirmPassword != d.password then (RegisterPage(MismatchError), users)
    else match RegisterSpec(users, d, encode, id)
      case Ok(u) => (RedirectToLogin(SuccessMessage), users + [u])
      case Throw(IllegalArgument(m)) => (RegisterPage(m), users)
      case Throw(_) => (RegisterPage(GenericError), users)
  }

  /** The submission stores a user exactly when it lands on the login page, and then the
      form was valid, both passwords agreed and the normalised name was free, and the
      name is taken afterwards. */
  lemma RegistrationSucceedsIff(users: seq<User>, d: UserDTO, encode: Option<string> -> Result<string>, id: int)
    ensures var (view, after) := RegistrationSpec(users, d, encode, id);
      (view.RedirectToLogin? <==>
         Violations(d) == {} && d.confirmPassword == d.password && RegisterSpec(users, d, encode, id).Ok?)
      && (view.RedirectToLogin? ==>
            view.flash == SuccessMessage && after == users + [RegisterSpec(users, d, encode, id).value]
            && UsernameExists(after, Normalise(d.username.value)))
  {
    ValidIff(d);
    var r := RegisterSpec(users, d, encode, id);
    if Violations(d) == {} && d.confirmPassword == d.password && r.Ok? {
      assert d.password.Some?;
      assert FindByUsername(users, r.value.username).None?;
      FindAppended(users, r.value);
    }
  }

  /** Every other outcome stays on the register page and stores nothing; binding errors
      are reported before the passwords are compared. */
  lemma RegistrationRefusals(users: seq<User>, d: UserDTO, encode: Option<string> -> Result<string>, id: int)
    ensures var (view, after) := RegistrationSpec(users, d, encode, id);
      (view.RegisterPage? ==> after == users)
      && (Violations(d) != {} ==> view == RegisterPage(FixFieldsError))
      && (Violations(d) == {} && d.confirmPassword != d.password ==> view == RegisterPage(MismatchError))
  {
    ValidIff(d);
  }

  /** A duplicate name lands back on the register page with the service's message. */
  lemma DuplicateShown(users: seq<User>, d: UserDTO, encode: Option<string> -> Result<string>, id: int)
    requires Violations(d) == {} && d.confirmPassword == d.password
    requires UsernameExists(users, Normalise(d.username.value))
    ensures RegistrationSpec(users, d, encode, id) == (RegisterPage("Username already exists"), users)
  {
    ValidIff(d);
  }

  /** registerUser of the controller, over the service's store. */
  method SubmitRegistration(store: UserStore, d: UserDTO, encode: Option<string> -> Result<string>, id: int)
    returns (view: RegistrationView)
    modifies store`users
    ensures (view, store.users) == RegistrationSpec(old(store.users), d, encode, id)
  {
    if Violations(d) != {} {
      return RegisterPage(FixFieldsError);
    }
    if d.password.None? {
      return RegisterPage(GenericError);
    }
    if d.confirmPassword != d.password {
      return RegisterPage(MismatchError);
    }
    var r := store.RegisterUser(d, encode, id);
    match r {
      case Ok(_) => view := RedirectToLogin(SuccessMessage);
      case Throw(IllegalArgument(m)) => view := RegisterPage(m);
      case Throw(_) => view := RegisterPage(GenericError);
    }
  }
}
