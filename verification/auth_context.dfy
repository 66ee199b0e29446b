/** The mock session holder of contexts/auth-context.tsx: the signed-in
    user, the loading flag and the "user" slot of the browser's storage.
    Every asynchronous operation is one atomic step that ends with loading
    false, which is what the `finally` blocks guarantee. */
module AuthContext {
  import opened Wrappers

  datatype Provider = EmailProvider | Google | Facebook | Linkedin

  /** The providers loginWithSocial accepts. */
  type SocialProvider = p: Provider | p != EmailProvider witness Google

  /** The string tag of a provider, as the source spells it. */
  function ProviderTag(p: Provider): string
  {
    match p
    case EmailProvider => "email"
    case Google => "google"
    case Facebook => "facebook"
    case Linkedin => "linkedin"
  }

  function ProviderOf(p: SocialProvider): Provider
  {
    p
  }

  datatype User = User(id: string, email: string, name: string, avatar: Option<string>, provider: Option<Provider>)

  /** email.split("@")[0]: the text before the first '@', or all of it when
      there is none. */
  function NameFromEmail(email: string): (name: string)
    ensures name <= email
    ensures '@' !in name
    ensures |name| < |email| ==> email[|name|] == '@'
  {
    if email == [] || email[0] == '@' then []
    else [email[0]] + NameFromEmail(email[1..])
  }

  /** The local part of an address is recovered from the whole address. */
  lemma {:induction false} NameOfAddress(local: string, domain: string)
    requires '@' !in local
    ensures NameFromEmail(local + "@" + domain) == local
  {
    if local != [] {
      assert (local + "@" + domain)[1..] == local[1..] + "@" + domain;
      NameOfAddress(local[1..], domain);
    } else {
      assert (local + "@" + domain)[0] == '@';
    }
  }

  /** An address without '@' is a name of its own. */
  lemma NameWithoutAt(email: string)
    requires '@' !in email
    ensures NameFromEmail(email) == email
  {
    forall i | 0 <= i < |email|
      ensures email[i] != '@'
    {
      assert email[i] in email;
    }
  }

  /** The user login stores: id "1", the address, the name taken from it. */
  function EmailUser(email: string, name: string): User
  {
    User("1", email, name, None, Some(EmailProvider))
  }

  /** The user loginWithSocial stores for a provider. */
  function SocialUser(p: SocialProvider): (u: User)
    ensures u.provider.Some? && u.provider.value == p
    ensures u.email == "user@" + ProviderTag(p) + ".com"
    ensures u.name == "User " + ProviderTag(p)
  {
    User("1", "user@" + ProviderTag(p) + ".com", "User " + ProviderTag(p),
         Some("/placeholder.svg?height=40&width=40&query=" + ProviderTag(p) + " user avatar"),
         Some(ProviderOf(p)))
  }

  class AuthProvider {
    var user: Option<User>
    var loading: bool
    /** The "user" slot of the storage. */
    var stored: Option<User>

    /** The session and the storage agree. */
    predicate Synced()
      reads this
    {
      user == stored
    }

    /** Mounting: no user yet, loading until the session is restored. */
    constructor (saved: Option<User>)
      ensures user == None && loading && stored == saved
    {
      user := None;
      loading := true;
      stored := saved;
    }

    /** The mount effect: a saved user becomes the session user; loading
        ends either way. */
    method RestoreSession()
      modifies this
      ensures user == (if old(stored).Some? then old(stored) else old(user))
      ensures !loading && stored == old(stored)
      ensures old(user) == None ==> Synced()
    {
      if stored.Some? {
        user := stored;
      }
      loading := false;
    }

    /** login(email, password): any password is accepted. */
    method Login(email: string, password: string)
      modifies this
      ensures user == Some(EmailUser(email, NameFromEmail(email)))
      ensures Synced() && !loading
    {
      loading := true;
      var mockUser := User("1", email, NameFromEmail(email), None, Some(EmailProvider));
      user := Some(mockUser);
      stored := Some(mockUser);
      loading := false;
    }

    /** register(email, password, name): the given name, not one taken from
        the address. */
    method Register(email: string, password: string, name: string)
      modifies this
      ensures user == Some(EmailUser(email, name))
      ensures Synced() && !loading
    {
      loading := true;
      var mockUser := User("1", email, name, None, Some(EmailProvider));
      user := Some(mockUser);
      stored := Some(mockUser);
      loading := false;
    }

    method LoginWithSocial(p: SocialProvider)
      modifies this
      ensures user == Some(SocialUser(p))
      ensures Synced() && !loading
    {
      loading := true;
      var mockUser := SocialUser(p);
      user := Some(mockUser);
      stored := Some(mockUser);
      loading := false;
    }

    /** logout: the session and the storage are cleared; loading is left
        as it is. */
    method Logout()
      modifies this
      ensures user == None && Synced() && loading == old(loading)
    {
      user := None;
      stored := None;
    }
  }

  /** A reload mounts a new provider over the same storage: once the
      session and storage agree, the same user comes back. */
  method Reload(p: AuthProvider) returns (q: AuthProvider)
    requires p.Synced()
    ensures fresh(q) && q.user == p.user && q.Synced() && !q.loading
  {
    q := new AuthProvider(p.stored);
    q.RestoreSession();
  }

  const OutsideProvider := "useAuth must be used within an AuthProvider"

  /** useAuth: the provider above the caller, or an error without one. */
  function UseAuth(context: Option<AuthProvider>): (r: Result<AuthProvider>)
    ensures r.Success? <==> context.Some?
    ensures r.Success? ==> r.value == context.value
    ensures r.Failure? ==> r.error == OutsideProvider
  {
    match context
    case None => Failure(OutsideProvider)
    case Some(p) => Success(p)
  }
}
