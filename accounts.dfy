/**
 * User accounts: the account manager's `create_user` / `create_superuser`,
 * the account's text forms, and the two admin forms that handle passwords.
 * Password hashing is a foreign service; a password is kept as the raw text
 * it was set from, which is all the model needs to tell passwords apart.
 */
module Accounts {
  import opened Wrappers
  import opened Text

  /** What `set_password` leaves behind: `None` makes the password unusable. */
  datatype PasswordState = Unusable | Hashed(raw: string)

  datatype Account = Account(
    email: string,
    username: string,
    firstName: string,
    lastName: string,
    password: PasswordState,
    isActive: bool,
    isStaff: bool,
    isSuperuser: bool)

  /** Why an account is not created or a form is refused. */
  datatype AccountError =
    | MissingEmail        // "Users must have a valid email address."
    | MissingFirstName    // "Users must have a valid first name."
    | MissingLastName     // "Users must have a valid last name."
    | MissingUsername     // "Users must have a valid username."
    | NotUnique           // the database refuses a second email or username
    | PasswordsDontMatch  // "Passwords don't match"
    | MissingKey(key: string)

  /** Python truthiness of an optional string argument: present and non-empty. */
  predicate Given(s: Option<string>)
  {
    s.Some? && s.value != ""
  }

  /** `set_password`: `None` gives an unusable password, any string a hashed one. */
  function PasswordFrom(password: Option<string>): (p: PasswordState)
    ensures p.Unusable? <==> password.None?
    ensures password.Some? ==> p == Hashed(password.value)
  {
    match password
    case None => Unusable
    case Some(raw) => Hashed(raw)
  }

  /**
   * The first argument `create_user` refuses, checked in the order email,
   * first name, last name, username.
   */
  function CreateUserError(email: Option<string>, firstName: Option<string>, lastName: Option<string>,
                           username: Option<string>): (r: Option<AccountError>)
    ensures r.None? <==> Given(email) && Given(firstName) && Given(lastName) && Given(username)
    ensures !Given(email) ==> r == Some(MissingEmail)
    ensures Given(email) && !Given(firstName) ==> r == Some(MissingFirstName)
    ensures Given(email) && Given(firstName) && !Given(lastName) ==> r == Some(MissingLastName)
    ensures Given(email) && Given(firstName) && Given(lastName) && !Given(username) ==> r == Some(MissingUsername)
  {
    if !Given(email) then Some(MissingEmail)
    else if !Given(firstName) then Some(MissingFirstName)
    else if !Given(lastName) then Some(MissingLastName)
    else if !Given(username) then Some(MissingUsername)
    else None
  }

  /** A plain account as `create_user` builds it: active, neither staff nor superuser. */
  function NewAccount(email: string, password: Option<string>, firstName: string, lastName: string,
                      username: string): (a: Account)
    ensures a.isActive && !a.isStaff && !a.isSuperuser
    ensures a.email == email && a.username == username
    ensures a.firstName == firstName && a.lastName == lastName
    ensures a.password == PasswordFrom(password)
  {
    Account(email, username, firstName, lastName, PasswordFrom(password), true, false, false)
  }

  /** `__str__`: the email address. */
  function AccountText(a: Account): (s: string)
    ensures s == a.email
  {
    a.email
  }

  /** `get_full_name`: first and last name joined by a space. */
  function FullName(a: Account): (s: string)
    ensures |s| == |a.firstName| + |a.lastName| + 1
    ensures s[..|a.firstName|] == a.firstName && s[|a.firstName|] == ' ' && s[|a.firstName| + 1..] == a.lastName
  {
    JoinWithSpace(a.firstName, a.lastName)
  }

  /** `get_short_name`: the first name. */
  function ShortName(a: Account): (s: string)
    ensures s == a.firstName
  {
    a.firstName
  }

  /**
   * The short name is where the full name starts, and, for a first name
   * without spaces, the full name gives back both names.
   */
  lemma FullNameParts(a: Account)
    ensures FullName(a)[..|ShortName(a)|] == ShortName(a)
    ensures FullName(a)[|a.firstName| + 1..] == a.lastName
    ensures ' ' !in a.firstName ==> Split(FullName(a), ' ')[0] == ShortName(a)
  {
    if ' ' !in a.firstName {
      JoinWithSpaceSplits(a.firstName, a.lastName);
    }
  }

  /** No two accounts share an email address or a username. */
  predicate UniqueAccounts(m: map<nat, Account>)
  {
    && (forall i, j :: i in m && j in m && m[i].email == m[j].email ==> i == j)
    && (forall i, j :: i in m && j in m && m[i].username == m[j].username ==> i == j)
  }

  /** Whether storing `a` would repeat an email address or a username already stored. */
  predicate Clashes(m: map<nat, Account>, a: Account)
  {
    exists k :: k in m && (m[k].email == a.email || m[k].username == a.username)
  }

  /** Because email addresses are unique, an account's text form names exactly one account. */
  lemma AccountTextIdentifies(m: map<nat, Account>, i: nat, j: nat)
    requires UniqueAccounts(m) && i in m && j in m
    ensures AccountText(m[i]) == AccountText(m[j]) <==> i == j
  {
  }

  /**
   * `clean_password2`: both entries must be given, non-empty and equal;
   * the cleaned value is the second entry.
   */
  function CleanPassword2(password1: Option<string>, password2: Option<string>): (r: Result<string, AccountError>)
    ensures r.Ok? <==> Given(password1) && Given(password2) && password1 == password2
    ensures r.Ok? ==> r.value == password2.value && r.value == password1.value
    ensures r.Err? ==> r.error == PasswordsDontMatch
  {
    if !(Given(password1) && Given(password2) && password1 == password2) then Err(PasswordsDontMatch)
    else Ok(password2.value)
  }

  /** Swapping the two entries neither changes the verdict nor the cleaned password. */
  lemma CleanPassword2Symmetric(password1: Option<string>, password2: Option<string>)
    ensures CleanPassword2(password1, password2) == CleanPassword2(password2, password1)
  {
  }

  /**
   * `AccountChangeForm.clean_password`: the stored password hash from the
   * form's initial data, whatever was submitted; a missing entry is a `KeyError`.
   */
  function CleanPassword(initial: map<string, string>, submitted: Option<string>): (r: Result<string, AccountError>)
    ensures "password" in initial ==> r == Ok(initial["password"])
    ensures "password" !in initial ==> r == Err(MissingKey("password"))
  {
    if "password" in initial then Ok(initial["password"]) else Err(MissingKey("password"))
  }

  /** The account table, keyed by auto-incremented ids. */
  class AccountTable {
    var accounts: map<nat, Account>
    var nextId: nat

    ghost predicate Valid()
      reads this
    {
      (forall k :: k in accounts ==> k < nextId) && UniqueAccounts(accounts)
    }

    constructor ()
      ensures Valid() && accounts == map[]
    {
      accounts, nextId := map[], 0;
    }

    /** `save()` of a new account: the insert the database refuses on a repeated email or username. */
    method Insert(a: Account) returns (r: Result<nat, AccountError>)
      requires Valid()
      modifies this
      ensures Valid()
      ensures Clashes(old(accounts), a) ==> r == Err(NotUnique) && unchanged(this)
      ensures !Clashes(old(accounts), a) ==>
                && r.Ok? && r.value !in old(accounts)
                && accounts == old(accounts)[r.value := a]
    {
      if exists k :: k in accounts && (accounts[k].email == a.email || accounts[k].username == a.username) {
        return Err(NotUnique);
      }
      var id := nextId;
      accounts := accounts[id := a];
      nextId := nextId + 1;
      r := Ok(id);
    }

    /**
     * `AccountManager.create_user`: refuses a missing email, first name,
     * last name or username, in that order, then stores a plain account.
     */
    method CreateUser(email: Option<string>, password: Option<string>, firstName: Option<string>,
                      lastName: Option<string>, username: Option<string>) returns (r: Result<nat, AccountError>)
      requires Valid()
      modifies this
      ensures Valid()
      ensures CreateUserError(email, firstName, lastName, username).Some? ==>
                r == Err(CreateUserError(email, firstName, lastName, username).value) && unchanged(this)
      ensures CreateUserError(email, firstName, lastName, username).None? ==>
                var a := NewAccount(email.value, password, firstName.value, lastName.value, username.value);
                if Clashes(old(accounts), a) then r == Err(NotUnique) && unchanged(this)
                else r.Ok? && r.value !in old(accounts) && accounts == old(accounts)[r.value := a]
    {
      var err := CreateUserError(email, firstName, lastName, username);
      if err.Some? {
        return Err(err.value);
      }
      r := Insert(NewAccount(email.value, password, firstName.value, lastName.value, username.value));
    }

    /**
     * `AccountManager.create_superuser`: `create_user`, then both the staff
     * and the superuser flag are set and the account saved again.
     */
    method CreateSuperuser(email: Option<string>, password: Option<string>, firstName: Option<string>,
                           lastName: Option<string>, username: Option<string>) returns (r: Result<nat, AccountError>)
      requires Valid()
      modifies this
      ensures Valid()
      ensures CreateUserError(email, firstName, lastName, username).Some? ==>
                r == Err(CreateUserError(email, firstName, lastName, username).value) && unchanged(this)
      ensures CreateUserError(email, firstName, lastName, username).None? ==>
                var a := NewAccount(email.value, password, firstName.value, lastName.value, username.value);
                if Clashes(old(accounts), a) then r == Err(NotUnique) && unchanged(this)
                else
                  && r.Ok? && r.value !in old(accounts)
                  && accounts == old(accounts)[r.value := a.(isStaff := true, isSuperuser := true)]
                  && accounts[r.value].isActive
    {
      r := CreateUser(email, password, firstName, lastName, username);
      if r.Ok? {
        accounts := accounts[r.value := accounts[r.value].(isStaff := true, isSuperuser := true)];
      }
    }

    /**
     * `AccountCreationForm.save`: the form's account gets the password from
     * `password1` and is stored only when `commit` is set.
     */
    method SaveCreationForm(user: Account, cleaned: map<string, string>, commit: bool)
      returns (r: Result<Account, AccountError>)
      requires Valid()
      modifies this
      ensures Valid()
      ensures "password1" !in cleaned ==> r == Err(MissingKey("password1")) && unchanged(this)
      ensures "password1" in cleaned && !commit ==>
                r == Ok(user.(password := Hashed(cleaned["password1"]))) && unchanged(this)
      ensures "password1" in cleaned && commit ==>
                var saved := user.(password := Hashed(cleaned["password1"]));
                if Clashes(old(accounts), saved) then r == Err(NotUnique) && unchanged(this)
                else r == Ok(saved) && exists k: nat :: k !in old(accounts) && accounts == old(accounts)[k := saved]
    {
      if "password1" !in cleaned {
        return Err(MissingKey("password1"));
      }
      var saved := user.(password := Hashed(cleaned["password1"]));
      if commit {
        var id := Insert(saved);
        if id.Err? {
          return Err(id.error);
        }
      }
      r := Ok(saved);
    }
  }
}
