/** The admin login page's session handling: the check run when the page mounts, and
    the storage of a new session after a successful login. */
module VerifyAdmin {
  import opened Common
  import opened JsText

  const TokenKey := "adminToken"
  const TimestampKey := "adminTokenTimestamp"
  const Dashboard := "/admin/dashboard"
  /** `24 * 60 * 60 * 1000` milliseconds. */
  const TwentyFourHours: int := 24 * 60 * 60 * 1000
  const AlreadyLoggedIn := "You are already logged in!"
  const AccessGranted := "Access granted!"
  const LoginRefused := "Invalid credentials. Try again."

  /** What the stored keys say about the session at a given time. */
  datatype Session = NoSession | Fresh | Stale

  /** `localStorage.getItem(key)` is truthy. */
  predicate Stored(storage: map<string, string>, key: string)
  {
    key in storage && storage[key] != ""
  }

  /** The session check: no session unless both keys hold something; otherwise fresh
      when less than 24 hours have passed since the stored timestamp. A timestamp
      `parseInt` cannot read gives `NaN`, and every comparison with `NaN` is false, so
      the session is then stale. */
  function SessionState(storage: map<string, string>, now: int): (s: Session)
    ensures s == NoSession <==> !Stored(storage, TokenKey) || !Stored(storage, TimestampKey)
    ensures s == Fresh <==> && Stored(storage, TokenKey) && Stored(storage, TimestampKey)
                            && ParseInt(storage[TimestampKey]).Some?
                            && now - ParseInt(storage[TimestampKey]).value < TwentyFourHours
  {
    if !Stored(storage, TokenKey) || !Stored(storage, TimestampKey) then NoSession
    else match ParseInt(storage[TimestampKey]) {
      case None => Stale
      case Some(t) => if now - t < TwentyFourHours then Fresh else Stale
    }
  }

  /** How the server's answer to the login request arrives: a failure (any error
      status), or a success whose body may lack the `token` field. */
  datatype LoginResponse = Failed | Succeeded(token: Option<string>)

  /** `String(value)`, as `setItem` stores it. */
  function StoredText(value: Option<string>): (text: string)
    ensures value.Some? ==> text == value.value
    ensures value.None? ==> text == "undefined"
  {
    if value.Some? then value.value else "undefined"
  }

  /** The storage after a successful login at time `now`. */
  function WithSession(storage: map<string, string>, token: string, now: nat): (after: map<string, string>)
    ensures after.Keys == storage.Keys + {TokenKey, TimestampKey}
    ensures after[TokenKey] == token && after[TimestampKey] == NatToString(now)
    ensures forall k :: k in storage && k != TokenKey && k != TimestampKey ==> after[k] == storage[k]
  {
    storage[TokenKey := token][TimestampKey := NatToString(now)]
  }

  /** A session stored at time `t` is fresh for the next 24 hours and stale from then
      on, whatever was in storage before. */
  lemma StoredSessionLastsADay(storage: map<string, string>, token: string, t: nat, now: int)
    requires token != ""
    ensures SessionState(WithSession(storage, token, t), now) == (if now - t < TwentyFourHours then Fresh else Stale)
  {
    var after := WithSession(storage, token, t);
    ParseIntNatToString(t);
    assert after[TimestampKey] == NatToString(t);
    assert after[TokenKey] == token;
  }

  /** Once the stale keys are removed, a later check finds no session. */
  lemma RemovedSessionIsGone(storage: map<string, string>, now: int)
    ensures SessionState(storage - {TokenKey, TimestampKey}, now) == NoSession
  {
  }

  /** The page's state: browser storage, the once-only flag, the loading flag, the
      route it sent the browser to and the notices it showed. */
  class AdminPage {
    var storage: map<string, string>
    var toastShown: bool
    var loading: bool
    var redirect: Option<string>
    var toasts: seq<string>

    constructor (storage: map<string, string>)
      ensures this.storage == storage && !toastShown && !loading && redirect == None && toasts == []
    {
      this.storage := storage;
      toastShown := false;
      loading := false;
      redirect := None;
      toasts := [];
    }

    /** The mount effect. A set flag skips the check. A fresh session sends the browser
        to the dashboard and sets the flag; a stale one removes both keys and nothing
        else; without both keys nothing happens. */
    method CheckSession(now: int)
      modifies this
      ensures loading == old(loading)
      ensures old(toastShown) || SessionState(old(storage), now) == NoSession ==>
                && storage == old(storage) && toastShown == old(toastShown)
                && redirect == old(redirect) && toasts == old(toasts)
      ensures !old(toastShown) && SessionState(old(storage), now) == Fresh ==>
                && storage == old(storage) && toastShown
                && redirect == Some(Dashboard) && toasts == old(toasts) + [AlreadyLoggedIn]
      ensures !old(toastShown) && SessionState(old(storage), now) == Stale ==>
                && storage == old(storage) - {TokenKey, TimestampKey} && !toastShown
                && redirect == old(redirect) && toasts == old(toasts)
    {
      if toastShown {
        return;
      }
      var session := SessionState(storage, now);
      if session == Fresh {
        toasts := toasts + [AlreadyLoggedIn];
        redirect := Some(Dashboard);
        toastShown := true;
      } else if session == Stale {
        storage := storage - {TokenKey};
        storage := storage - {TimestampKey};
      }
    }

    /** `handleSubmit`: loading while the request is out; a success stores the token and
        the current time and goes to the dashboard, a failure stores nothing. Loading
        ends in both cases. */
    method HandleSubmit(response: LoginResponse, now: nat)
      modifies this
      ensures !loading && toastShown == old(toastShown)
      ensures response.Failed? ==>
                && storage == old(storage) && redirect == old(redirect)
                && toasts == old(toasts) + [LoginRefused]
      ensures response.Succeeded? ==>
                && storage == WithSession(old(storage), StoredText(response.token), now)
                && redirect == Some(Dashboard) && toasts == old(toasts) + [AccessGranted]
    {
      loading := true;
      match response {
        case Failed =>
          toasts := toasts + [LoginRefused];
        case Succeeded(token) =>
          storage := storage[TokenKey := StoredText(token)];
          storage := storage[TimestampKey := NatToString(now)];
          toasts := toasts + [AccessGranted];
          redirect := Some(Dashboard);
      }
      loading := false;
    }
  }

  /** A login followed, within 24 hours, by a fresh visit of the page sends the browser
      to the dashboard without asking again. */
  method LoginThenRevisit(storage: map<string, string>, token: string, t: nat, now: int)
      returns (page: AdminPage)
    requires token != "" && t <= now < t + TwentyFourHours
    ensures page.storage == WithSession(storage, token, t)
    ensures page.redirect == Some(Dashboard) && page.toastShown
  {
    var first := new AdminPage(storage);
    first.HandleSubmit(Succeeded(Some(token)), t);
    page := new AdminPage(first.storage);
    StoredSessionLastsADay(storage, token, t, now);
    page.CheckSession(now);
  }
}
