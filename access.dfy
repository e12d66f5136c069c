/**
 * Who may do what: the object permissions, the account endpoints' choice
 * of permissions by HTTP verb, and the answers of the login view, the
 * cover-letter employee lookup and the filled-template view.
 */
module Access {
  import opened Wrappers

  /**
   * The requesting user as the framework hands it over: an account, the
   * anonymous user (a truthy object that equals no account), or no user.
   */
  datatype Principal = Anonymous | AccountUser(id: nat)

  /** `permissions.SAFE_METHODS`. */
  predicate IsSafeMethod(verb: string)
  {
    verb in {"GET", "HEAD", "OPTIONS"}
  }

  /**
   * `IsOwnerOrReadOnly.has_object_permission`: anyone may read; writing
   * needs the object's owner to be the requesting user.
   */
  function OwnerOrReadOnly(verb: string, owner: nat, user: Option<Principal>): (granted: bool)
    ensures IsSafeMethod(verb) ==> granted
    ensures !IsSafeMethod(verb) ==> (granted <==> user == Some(AccountUser(owner)))
  {
    if IsSafeMethod(verb) then true else user == Some(AccountUser(owner))
  }

  /**
   * `IsAccountOwner.has_object_permission`: a present (truthy) user may act
   * on the account that is that user; without a user nothing is granted.
   */
  function AccountOwner(account: nat, user: Option<Principal>): (granted: bool)
    ensures granted <==> user == Some(AccountUser(account))
    ensures user.None? ==> !granted
  {
    match user
    case Some(u) => u == AccountUser(account)
    case None => false
  }

  /** The permission classes the account endpoints choose from. */
  datatype Permission = AllowAny | IsAuthenticated | IsAccountOwner

  /**
   * `AccountViewSet.get_permissions`: any caller may read or create an
   * account; every other method needs an authenticated account owner.
   */
  function AccountPermissions(verb: string): (ps: seq<Permission>)
    ensures IsSafeMethod(verb) || verb == "POST" ==> ps == [AllowAny]
    ensures !IsSafeMethod(verb) && verb != "POST" ==> ps == [IsAuthenticated, IsAccountOwner]
  {
    if IsSafeMethod(verb) then [AllowAny]
    else if verb == "POST" then [AllowAny]
    else [IsAuthenticated, IsAccountOwner]
  }

  /** `has_permission`, the view-level check: only `IsAuthenticated` refuses anyone. */
  predicate ViewGrant(p: Permission, user: Option<Principal>)
  {
    match p
    case IsAuthenticated => user.Some? && user.value.AccountUser?
    case _ => true
  }

  /** `has_object_permission`, the object-level check: only `IsAccountOwner` refuses anyone. */
  predicate ObjectGrant(p: Permission, account: nat, user: Option<Principal>)
  {
    match p
    case IsAccountOwner => AccountOwner(account, user)
    case _ => true
  }

  /** A request on one account passes when every chosen permission grants it at both levels. */
  predicate AccountRequestAllowed(verb: string, account: nat, user: Option<Principal>)
  {
    var ps := AccountPermissions(verb);
    forall i :: 0 <= i < |ps| ==> ViewGrant(ps[i], user) && ObjectGrant(ps[i], account, user)
  }

  /**
   * Reading and creating accounts is open to everyone; changing or deleting
   * an account is open to exactly that account's own user.
   */
  lemma AccountAccess(verb: string, account: nat, user: Option<Principal>)
    ensures IsSafeMethod(verb) || verb == "POST" ==> AccountRequestAllowed(verb, account, user)
    ensures !IsSafeMethod(verb) && verb != "POST" ==>
              (AccountRequestAllowed(verb, account, user) <==> user == Some(AccountUser(account)))
  {
    var ps := AccountPermissions(verb);
    if !IsSafeMethod(verb) && verb != "POST" {
      assert ps[0] == IsAuthenticated && ps[1] == IsAccountOwner;
    }
  }

  /** Neither an anonymous caller nor a request without a user may change an account. */
  lemma AnonymousCannotWrite(verb: string, account: nat)
    requires !IsSafeMethod(verb) && verb != "POST"
    ensures !AccountRequestAllowed(verb, account, Some(Anonymous))
    ensures !AccountRequestAllowed(verb, account, None)
  {
    AccountAccess(verb, account, Some(Anonymous));
    AccountAccess(verb, account, None);
  }

  /** The JSON bodies the views answer with. */
  datatype Payload =
    | StatusMessage(status: string, message: string)
    | AccountData(account: nat)
    | TemplateBody(templateBody: string, name: string)

  datatype Reply = Reply(code: int, payload: Payload)

  /** What `authenticate` found for the submitted credentials. */
  datatype Credentials = Credentials(account: nat, isActive: bool)

  /**
   * `LoginView.post`: unknown credentials and disabled accounts are
   * answered with 401 and a message; an active account is logged in and
   * answered with its serialized data. The second result says whether
   * the session was logged in.
   */
  function Login(found: Option<Credentials>): (r: (Reply, bool))
    ensures found.None? ==>
              r == (Reply(401, StatusMessage("Unauthorized", "Username/password combination invalid.")), false)
    ensures found.Some? && !found.value.isActive ==>
              r == (Reply(401, StatusMessage("Unauthorized", "This account has been disabled.")), false)
    ensures r.1 <==> found.Some? && found.value.isActive
    ensures r.1 ==> r.0 == Reply(200, AccountData(found.value.account))
    ensures r.0.code == 200 <==> r.1
  {
    match found
    case None => (Reply(401, StatusMessage("Unauthorized", "Username/password combination invalid.")), false)
    case Some(c) =>
      if c.isActive then (Reply(200, AccountData(c.account)), true)
      else (Reply(401, StatusMessage("Unauthorized", "This account has been disabled.")), false)
  }

  /** `GenerateCoverLetterAsPDF.get_employee`: a missing id is answered with 404. */
  function LookupOr404<T>(table: map<nat, T>, pk: nat): (r: Result<T, int>)
    ensures pk in table <==> r.Ok?
    ensures r.Ok? ==> r.value == table[pk]
    ensures r.Err? ==> r.error == 404
  {
    if pk in table then Ok(table[pk]) else Err(404)
  }

  /**
   * The answer of `FilledTemplateViewSet.get` once the template has been
   * filled: the text and the template's name, or 500 when the filled text
   * is empty.
   */
  function FilledTemplateReply(html: string, name: string): (r: Reply)
    ensures html != "" ==> r == Reply(200, TemplateBody(html, name))
    ensures html == "" ==> r == Reply(500, StatusMessage("Internal Error", "HTML could not be generated"))
  {
    if html != "" then Reply(200, TemplateBody(html, name))
    else Reply(500, StatusMessage("Internal Error", "HTML could not be generated"))
  }
}
