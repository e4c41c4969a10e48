/**
 Sign-in navigation of the site: guards and loaders that read, save and clear the
 stored bearer and the session marker, and leave by redirects, for arbitrary answers
 of the relay, in one tab.
 */
module SignIn {
  import opened Common

  /**
   A location of the site. A login nests the location its redirect leads to; `Open`
   stands for the pages without a guard.
   */
  datatype Location =
    | Login(redirect: Option<Location>, viaSocial: bool, error: Option<string>)
    | Authorize(search: Option<string>)
    | AuthorizeDone(search: Option<string>)
    | Account
    | Open(path: string)

  datatype Failure = Unauthorized | Unavailable | OtherRelayFailure | NotFromRelay

  datatype Reply<+T> = Got(value: T) | Failed(failure: Failure)

  datatype AccountReply = AccountReply(email: string, isNamed: bool)

  /**
   What the relay answers during one visit. Of two calls made together, the first to
   fail decides: `accountFirst` says whether that is the account's.
   */
  datatype Replies = Replies(
    session: Reply<string>, account: Reply<AccountReply>, request: Reply<string>, sessions: Reply<()>,
    signOut: Reply<()>, accountFirst: bool)

  datatype ClosedKind = Expired | Cancelled

  datatype Page =
    | SignedOutLogin
    | NameStep(email: string)
    | Closed(kind: ClosedKind)
    | Pending(request: string, account: AccountReply, isJustSignedIn: bool)
    | SignedIn(email: string, isBrowserStillSignedIn: bool)
    | AccountPage
    | OpenPage

  datatype Outcome = Rendered(page: Page) | Redirected(to: Location) | Crashed(failure: Failure)

  /** Local storage's bearer and session storage's marker. */
  datatype Tab = Tab(bearer: Option<string>, marker: Option<string>)

  /** What a visit or a page does to them, in order. */
  datatype Entry =
    | Saved(bearer: string)
    | Cleared
    | Stored(request: string)
    | LoadedPending(request: string, isJustSignedIn: bool)

  datatype Effect = Effect(tab: Tab, outcome: Outcome, entries: seq<Entry>)

  const NO_SESSION := "no-session"

  // --------------------------------------------------------------------- requests

  predicate IsHexDigit(c: char) { '0' <= c <= '9' || 'a' <= c <= 'f' || 'A' <= c <= 'F' }

  /** `UUID_PATTERN`. */
  predicate IsUuid(s: string) {
    && |s| == 36
    && forall i :: 0 <= i < 36 ==> if i in {8, 13, 18, 23} then s[i] == '-' else IsHexDigit(s[i])
  }

  /** `validateAuthorizeSearch`. */
  function RequestOf(search: Option<string>): Option<string> {
    if search.Some? && IsUuid(search.value) then search else None
  }

  // ------------------------------------------------------------------------ visits

  /** A stored bearer counts unless it is empty. */
  predicate IsBearer(stored: Option<string>) { stored.Some? && stored.value != "" }

  predicate HasBearer(tab: Tab) { IsBearer(tab.bearer) }

  function LandingOf(redirect: Option<Location>): Location {
    if redirect.Some? then redirect.value else Account
  }

  function ToLogin(from: Location): Location { Login(Some(from), false, None) }

  /** `signInThenReturn`, from a tab whose bearer is missing or was just cleared. */
  function SignInThenReturn(tab: Tab, request: Option<string>, from: Location, entries: seq<Entry>): Effect {
    if request.Some? then
      Effect(tab.(marker := request), Redirected(ToLogin(from)), entries + [Stored(request.value)])
    else Effect(tab, Redirected(ToLogin(from)), entries)
  }

  /** What a loader that failed does: sign in again when unauthorized. */
  function LoadFailed(tab: Tab, failure: Failure, request: Option<string>, from: Location): Effect {
    if failure == Unauthorized then SignInThenReturn(tab.(bearer := None), request, from, [Cleared])
    else Effect(tab, Crashed(failure), [])
  }

  /** `finishSocialSignIn`, on a login come back from a provider. */
  function FinishSocial(tab: Tab, redirect: Option<Location>, session: Reply<string>): Effect {
    match session
    case Got(bearer) =>
      if bearer != "" then
        Effect(tab.(bearer := Some(bearer)), Redirected(Login(redirect, false, None)), [Saved(bearer)])
      else Effect(tab, Redirected(Login(redirect, false, Some(NO_SESSION))), [])
    case Failed(failure) =>
      if failure == Unauthorized then Effect(tab, Redirected(Login(redirect, false, Some(NO_SESSION))), [])
      else Effect(tab, Crashed(failure), [])
  }

  /** `loadLoginState`. */
  function LoadLogin(tab: Tab, redirect: Option<Location>, account: Reply<AccountReply>): Effect {
    if !HasBearer(tab) then Effect(tab, Rendered(SignedOutLogin), [])
    else
      match account
      case Got(a) =>
        if a.isNamed then Effect(tab, Redirected(LandingOf(redirect)), [])
        else Effect(tab, Rendered(NameStep(a.email)), [])
      case Failed(failure) =>
        if failure == Unauthorized then Effect(tab.(bearer := None), Rendered(SignedOutLogin), [Cleared])
        else Effect(tab, Crashed(failure), [])
  }

  /** `readKnownRequest`: an unavailable request has no status. */
  function Status(request: Reply<string>): Reply<Option<string>> {
    match request
    case Got(status) => Got(Some(status))
    case Failed(failure) => if failure == Unavailable then Got(None) else Failed(failure)
  }

  /** Both answers of two calls made together, or the failure that decides. */
  function Both<A, B>(a: Reply<A>, b: Reply<B>, bFirst: bool): Reply<(A, B)> {
    match (a, b)
    case (Got(x), Got(y)) => Got((x, y))
    case (Failed(f), Failed(g)) => Failed(if bFirst then g else f)
    case (Failed(f), Got(_)) => Failed(f)
    case (Got(_), Failed(g)) => Failed(g)
  }

  /** `loadAuthorizeState`. */
  function LoadAuthorize(tab: Tab, search: Option<string>, replies: Replies): Effect {
    match RequestOf(search)
    case None => Effect(tab, Rendered(Closed(Expired)), [])
    case Some(request) =>
      match Both(Status(replies.request), replies.account, replies.accountFirst)
      case Failed(failure) => LoadFailed(tab, failure, Some(request), Authorize(search))
      case Got((status, account)) =>
        if status == Some("cancelled") then Effect(tab, Rendered(Closed(Cancelled)), [])
        else if status != Some("pending") then Effect(tab, Rendered(Closed(Expired)), [])
        else
          var just := tab.marker == Some(request);
          Effect(tab.(marker := None), Rendered(Pending(request, account, just)), [LoadedPending(request, just)])
  }

  /** `hasBrowserSignOutFailed` around the signed-in page. */
  function SignOutThenShow(tab: Tab, email: string, signOut: Reply<()>): Effect {
    match signOut
    case Got(_) => Effect(tab.(bearer := None), Rendered(SignedIn(email, false)), [Cleared])
    case Failed(failure) =>
      match failure
      case Unauthorized => Effect(tab.(bearer := None), Rendered(SignedIn(email, false)), [Cleared])
      case NotFromRelay => Effect(tab, Crashed(failure), [])
      case _ => Effect(tab, Rendered(SignedIn(email, true)), [])
  }

  /** `loadDoneState`. */
  function LoadDone(tab: Tab, search: Option<string>, replies: Replies): Effect {
    match RequestOf(search)
    case None => Effect(tab, Rendered(Closed(Expired)), [])
    case Some(request) =>
      match Both(Status(replies.request), replies.account, replies.accountFirst)
      case Failed(failure) => LoadFailed(tab, failure, None, AuthorizeDone(search))
      case Got((status, account)) =>
        if status != Some("approved") then Effect(tab, Rendered(Closed(Expired)), [])
        else SignOutThenShow(tab, account.email, replies.signOut)
  }

  /** `loadAccountState`. */
  function LoadAccount(tab: Tab, replies: Replies): Effect {
    match Both(replies.sessions, replies.account, replies.accountFirst)
    case Failed(failure) => LoadFailed(tab, failure, None, Account)
    case Got(_) => Effect(tab, Rendered(AccountPage), [])
  }

  /** One visit: the guard of the route, then its loader unless the guard redirects. */
  function Visit(tab: Tab, l: Location, replies: Replies): Effect {
    match l
    case Login(redirect, viaSocial, _) =>
      if viaSocial then FinishSocial(tab, redirect, replies.session) else LoadLogin(tab, redirect, replies.account)
    case Authorize(search) =>
      if HasBearer(tab) then LoadAuthorize(tab, search, replies)
      else SignInThenReturn(tab, RequestOf(search), l, [])
    case AuthorizeDone(search) =>
      if HasBearer(tab) then LoadDone(tab, search, replies) else SignInThenReturn(tab, None, l, [])
    case Account =>
      if HasBearer(tab) then LoadAccount(tab, replies) else SignInThenReturn(tab, None, l, [])
    case Open(_) => Effect(tab, Rendered(OpenPage), [])
  }

  // ------------------------------------------------------------------------- class

  /** The browser tab the guards and loaders run in. */
  class Browser {
    var bearer: Option<string>
    var marker: Option<string>
    ghost var log: seq<Entry>

    function Now(): Tab
      reads this
    {
      Tab(bearer, marker)
    }

    /** The tab went through an effect: new storage, and a log that only grew by it. */
    twostate predicate Did(e: Effect, outcome: Outcome)
      reads this
    {
      Now() == e.tab && outcome == e.outcome && log == old(log) + e.entries
    }

    method SaveBearer(token: string)
      modifies this
      ensures Now() == old(Now()).(bearer := Some(token)) && log == old(log) + [Saved(token)]
    {
      bearer := Some(token);
      log := log + [Saved(token)];
    }

    method ClearBearer()
      modifies this
      ensures Now() == old(Now()).(bearer := None) && log == old(log) + [Cleared]
    {
      bearer := None;
      log := log + [Cleared];
    }

    method StoreThenRedirect(request: Option<string>, from: Location) returns (outcome: Outcome)
      modifies this
      ensures Did(SignInThenReturn(old(Now()), request, from, []), outcome)
    {
      if request.Some? {
        marker := request;
        log := log + [Stored(request.value)];
      }
      outcome := Redirected(ToLogin(from));
    }

    method SignInAgainOnUnauthorized(failure: Failure, request: Option<string>, from: Location) returns (outcome: Outcome)
      modifies this
      ensures Did(LoadFailed(old(Now()), failure, request, from), outcome)
    {
      if failure != Unauthorized {
        return Crashed(failure);
      }
      ClearBearer();
      outcome := StoreThenRedirect(request, from);
    }

    method FinishSocialSignIn(redirect: Option<Location>, session: Reply<string>) returns (outcome: Outcome)
      modifies this
      ensures Did(FinishSocial(old(Now()), redirect, session), outcome)
    {
      var returned := "";
      match session {
        case Got(token) => returned := token;
        case Failed(failure) =>
          if failure != Unauthorized {
            return Crashed(failure);
          }
      }
      if returned != "" {
        SaveBearer(returned);
      }
      outcome := Redirected(Login(redirect, false, if returned != "" then None else Some(NO_SESSION)));
    }

    method LoadLoginState(redirect: Option<Location>, account: Reply<AccountReply>) returns (outcome: Outcome)
      modifies this
      ensures Did(LoadLogin(old(Now()), redirect, account), outcome)
    {
      if bearer.None? || bearer.value == "" {
        return Rendered(SignedOutLogin);
      }
      match account {
        case Got(a) =>
          outcome := if a.isNamed then Redirected(LandingOf(redirect)) else Rendered(NameStep(a.email));
        case Failed(failure) =>
          if failure != Unauthorized {
            return Crashed(failure);
          }
          ClearBearer();
          outcome := Rendered(SignedOutLogin);
      }
    }

    method ConsumeJustSignedIn(request: string) returns (isJustSignedIn: bool)
      modifies this
      ensures isJustSignedIn <==> old(marker) == Some(request)
      ensures marker == None && bearer == old(bearer)
      ensures log == old(log) + [LoadedPending(request, isJustSignedIn)]
    {
      isJustSignedIn := marker == Some(request);
      marker := None;
      log := log + [LoadedPending(request, isJustSignedIn)];
    }

    method LoadAuthorizeState(search: Option<string>, replies: Replies) returns (outcome: Outcome)
      modifies this
      ensures Did(LoadAuthorize(old(Now()), search, replies), outcome)
    {
      var request := RequestOf(search);
      if request.None? {
        return Rendered(Closed(Expired));
      }
      match Both(Status(replies.request), replies.account, replies.accountFirst) {
        case Failed(failure) =>
          outcome := SignInAgainOnUnauthorized(failure, request, Authorize(search));
        case Got((status, account)) =>
          if status == Some("cancelled") {
            return Rendered(Closed(Cancelled));
          }
          if status != Some("pending") {
            return Rendered(Closed(Expired));
          }
          var just := ConsumeJustSignedIn(request.value);
          outcome := Rendered(Pending(request.value, account, just));
      }
    }

    method LoadDoneState(search: Option<string>, replies: Replies) returns (outcome: Outcome)
      modifies this
      ensures Did(LoadDone(old(Now()), search, replies), outcome)
    {
      if RequestOf(search).None? {
        return Rendered(Closed(Expired));
      }
      match Both(Status(replies.request), replies.account, replies.accountFirst) {
        case Failed(failure) =>
          outcome := SignInAgainOnUnauthorized(failure, None, AuthorizeDone(search));
        case Got((status, account)) =>
          if status != Some("approved") {
            return Rendered(Closed(Expired));
          }
          outcome := SignOutBrowser(account.email, replies.signOut);
      }
    }

    method SignOutBrowser(email: string, signOut: Reply<()>) returns (outcome: Outcome)
      modifies this
      ensures Did(SignOutThenShow(old(Now()), email, signOut), outcome)
    {
      if signOut.Failed? && signOut.failure != Unauthorized {
        if signOut.failure == NotFromRelay {
          return Crashed(signOut.failure);
        }
        return Rendered(SignedIn(email, true));
      }
      ClearBearer();
      outcome := Rendered(SignedIn(email, false));
    }

    /** The guard and the loader of the route a location matches. */
    method Navigate(l: Location, replies: Replies) returns (outcome: Outcome)
      modifies this
      ensures Did(Visit(old(Now()), l, replies), outcome)
    {
      match l {
        case Login(redirect, viaSocial, _) =>
          if viaSocial {
            outcome := FinishSocialSignIn(redirect, replies.session);
          } else {
            outcome := LoadLoginState(redirect, replies.account);
          }
        case Authorize(search) =>
          if bearer.None? || bearer.value == "" {
            outcome := StoreThenRedirect(RequestOf(search), l);
          } else {
            outcome := LoadAuthorizeState(search, replies);
          }
        case AuthorizeDone(search) =>
          if bearer.None? || bearer.value == "" {
            outcome := StoreThenRedirect(None, l);
          } else {
            outcome := LoadDoneState(search, replies);
          }
        case Account =>
          if bearer.None? || bearer.value == "" {
            outcome := StoreThenRedirect(None, l);
          } else {
            outcome := LoadAccountState(replies);
          }
        case Open(_) =>
          outcome := Rendered(OpenPage);
      }
    }

    method LoadAccountState(replies: Replies) returns (outcome: Outcome)
      modifies this
      ensures Did(LoadAccount(old(Now()), replies), outcome)
    {
      match Both(replies.sessions, replies.account, replies.accountFirst) {
        case Failed(failure) => outcome := SignInAgainOnUnauthorized(failure, None, Account);
        case Got(_) => outcome := Rendered(AccountPage);
      }
    }
  }

  // ------------------------------------------------------------------ redirect chains

  /** How many logins a location nests, itself included. */
  function Depth(l: Location): nat {
    match l
    case Login(Some(inner), _, _) => 1 + Depth(inner)
    case Login(None, _, _) => 1
    case _ => 0
  }

  /** The redirects that may follow from a location, at most. */
  function MaxRedirects(hasBearer: bool, l: Location): nat
    decreases l
  {
    match l
    case Login(redirect, viaSocial, _) =>
      if !viaSocial && !hasBearer then 0
      else
        (if viaSocial then 2 else 1)
        + (match redirect case Some(inner) => MaxRedirects(true, inner) case None => 1)
    case Authorize(search) => if hasBearer && RequestOf(search).None? then 0 else 1
    case AuthorizeDone(search) => if hasBearer && RequestOf(search).None? then 0 else 1
    case Account => 1
    case Open(_) => 0
  }

  lemma {:induction false} TwoRedirectsPerLogin(hasBearer: bool, l: Location)
    ensures MaxRedirects(hasBearer, l) <= 2 * Depth(l) + 1
    decreases l
  {
    if l.Login? && l.redirect.Some? {
      TwoRedirectsPerLogin(true, l.redirect.value);
    }
  }

  /** So many logins come back from a provider, each leading to the next, and the last one to the account. */
  function Nested(logins: nat): Location {
    if logins == 0 then Account else Login(Some(Nested(logins - 1)), true, None)
  }

  /** There the two redirects a login, and one more, may all follow. */
  lemma {:induction false} TwoRedirectsAreNeeded(logins: nat, hasBearer: bool)
    ensures Depth(Nested(logins)) == logins && MaxRedirects(hasBearer, Nested(logins)) == 2 * logins + 1
  {
    if logins > 0 {
      TwoRedirectsAreNeeded(logins - 1, true);
    }
  }

  /** Every redirect leads to where strictly fewer may follow. */
  lemma RedirectsShrink(tab: Tab, l: Location, replies: Replies)
    ensures var e := Visit(tab, l, replies);
            e.outcome.Redirected? ==> MaxRedirects(HasBearer(e.tab), e.outcome.to) < MaxRedirects(HasBearer(tab), l)
  {
  }

  /** A chain of redirects followed to its end; visit number n gets the nth replies. */
  function Follow(tab: Tab, l: Location, replies: nat -> Replies, n: nat): (end: (Effect, nat))
    ensures !end.0.outcome.Redirected?
    ensures end.1 <= MaxRedirects(HasBearer(tab), l)
    decreases MaxRedirects(HasBearer(tab), l)
  {
    var e := Visit(tab, l, replies(n));
    if e.outcome.Redirected? then
      RedirectsShrink(tab, l, replies(n));
      var end := Follow(e.tab, e.outcome.to, replies, n + 1);
      (end.0.(entries := e.entries + end.0.entries), end.1 + 1)
    else (e, 0)
  }

  /** Every chain ends on a page or a failure, after at most two redirects a nested login and one more. */
  lemma ChainsEnd(tab: Tab, l: Location, replies: nat -> Replies)
    ensures var (last, redirects) := Follow(tab, l, replies, 0);
            !last.outcome.Redirected? && redirects <= 2 * Depth(l) + 1
  {
    TwoRedirectsPerLogin(HasBearer(tab), l);
  }

  /** Logins succeed with a named account, and everything behind a guard refuses the bearer. */
  predicate Worst(r: Replies) {
    && r.session.Got? && r.session.value != ""
    && r.account.Got? && r.account.value.isNamed
    && r.request == Failed(Unauthorized) && r.sessions == Failed(Unauthorized)
  }

  /** The bound is the number of redirects itself, for those answers. */
  lemma {:induction false} BoundIsReached(tab: Tab, l: Location, replies: nat -> Replies, n: nat)
    requires forall k :: Worst(replies(k))
    ensures Follow(tab, l, replies, n).1 == MaxRedirects(HasBearer(tab), l)
    decreases MaxRedirects(HasBearer(tab), l)
  {
    var e := Visit(tab, l, replies(n));
    assert Worst(replies(n));
    if e.outcome.Redirected? {
      RedirectsShrink(tab, l, replies(n));
      BoundIsReached(e.tab, e.outcome.to, replies, n + 1);
    }
  }

  predicate IsGuarded(l: Location) { l.Authorize? || l.AuthorizeDone? || l.Account? }

  /**
   A guarded location redirects only with the bearer gone, to a login that shows the
   sign-in page whatever the relay answers, and that returns to the location once a
   named account is signed in.
   */
  lemma SignInSettlesAndReturns(tab: Tab, l: Location, replies: Replies, next: Replies, bearer: string)
    requires IsGuarded(l) && Visit(tab, l, replies).outcome.Redirected?
    ensures var e := Visit(tab, l, replies);
            && !HasBearer(e.tab)
            && e.outcome.to == ToLogin(l)
            && Visit(e.tab, ToLogin(l), next) == Effect(e.tab, Rendered(SignedOutLogin), [])
            && (bearer != "" && next.account.Got? && next.account.value.isNamed
                ==> Visit(e.tab.(bearer := Some(bearer)), ToLogin(l), next).outcome == Redirected(l))
  {
  }

  /** Of a call made together with the account's, the failure that decides is an unauthorized one. */
  predicate EndsUnauthorized<T(==)>(call: Reply<T>, account: Reply<AccountReply>, accountFirst: bool) {
    || (call == Failed(Unauthorized) && !(account.Failed? && accountFirst))
    || (account == Failed(Unauthorized) && (accountFirst || call.Got?))
  }

  /** A visit with a bearer whose deciding failure is an unauthorized answer. */
  predicate IsRefused(tab: Tab, l: Location, r: Replies) {
    && HasBearer(tab)
    && match l
       case Login(_, viaSocial, _) => !viaSocial && r.account == Failed(Unauthorized)
       case Authorize(search) =>
         RequestOf(search).Some? && EndsUnauthorized(Status(r.request), r.account, r.accountFirst)
       case AuthorizeDone(search) =>
         RequestOf(search).Some? && EndsUnauthorized(Status(r.request), r.account, r.accountFirst)
       case Account => EndsUnauthorized(r.sessions, r.account, r.accountFirst)
       case Open(_) => false
  }

  /**
   A visit takes a bearer out of the tab exactly when an unauthorized answer decides
   it, or on the page that signs the browser out: there unless signing out failed
   otherwise than as unauthorized. Refused, it shows the login or leads to it.
   */
  lemma UnauthorizedClears(tab: Tab, l: Location, replies: Replies)
    requires HasBearer(tab)
    ensures var e := Visit(tab, l, replies);
            var signsOut := e.outcome.Rendered? && e.outcome.page.SignedIn?;
            && (e.tab.bearer == None <==>
                || IsRefused(tab, l, replies)
                || (signsOut && (replies.signOut.Got? || replies.signOut == Failed(Unauthorized))))
            && (IsRefused(tab, l, replies) ==>
                e.outcome == if l.Login? then Rendered(SignedOutLogin) else Redirected(ToLogin(l)))
  {
  }

  /** A visit that fails for any other reason than an unauthorized answer leaves the tab as it was. */
  lemma FailuresKeepTheTab(tab: Tab, l: Location, replies: Replies)
    ensures var e := Visit(tab, l, replies);
            e.outcome.Crashed? ==> e.outcome.failure != Unauthorized && e.tab == tab && e.entries == []
  {
  }

  // ------------------------------------------------------------- what a visit does

  predicate AreHex(s: string) { forall c :: c in s ==> c in "0123456789abcdefABCDEF" }

  lemma HexDigits(c: char)
    ensures IsHexDigit(c) <==> c in "0123456789abcdefABCDEF"
  {
    if IsHexDigit(c) {
      var digits := "0123456789abcdefABCDEF";
      var i := c as int - (if c <= '9' then 48 else if c <= 'F' then 49 else 87);
      if 'A' <= c <= 'F' {
        assert digits[c as int - 49] == c;
      } else {
        assert digits[i] == c;
      }
    }
  }

  /** A request is told by five groups of hexadecimal digits, of 8, 4, 4, 4 and 12, in either case. */
  lemma UuidsHaveFiveGroups(s: string)
    ensures RequestOf(Some(s)) == Some(s) <==>
            && |s| == 36 && s[8] == s[13] == s[18] == s[23] == '-'
            && AreHex(s[..8]) && AreHex(s[9..13]) && AreHex(s[14..18]) && AreHex(s[19..23]) && AreHex(s[24..])
    ensures RequestOf(Some(s)) in {Some(s), None} && RequestOf(None) == None
  {
    forall c
      ensures IsHexDigit(c) <==> c in "0123456789abcdefABCDEF"
    {
      HexDigits(c);
    }
  }

  /** A login come back from a provider saves the session it brings, and leaves for the login itself. */
  lemma SocialReturnDoes(tab: Tab, redirect: Option<Location>, error: Option<string>, replies: Replies)
    ensures var e := Visit(tab, Login(redirect, true, error), replies);
            match replies.session
            case Got(bearer) =>
              e == if bearer != "" then
                     Effect(tab.(bearer := Some(bearer)), Redirected(Login(redirect, false, None)), [Saved(bearer)])
                   else Effect(tab, Redirected(Login(redirect, false, Some("no-session"))), [])
            case Failed(failure) =>
              e == Effect(tab, if failure == Unauthorized then Redirected(Login(redirect, false, Some("no-session")))
                               else Crashed(failure), [])
  {
  }

  /** A login sends a named account on, asks an unnamed one for its name, and is shown to anyone else. */
  lemma LoginDoes(tab: Tab, redirect: Option<Location>, error: Option<string>, replies: Replies)
    ensures var e := Visit(tab, Login(redirect, false, error), replies);
            if tab.bearer.None? || tab.bearer.value == "" then e == Effect(tab, Rendered(SignedOutLogin), [])
            else
              match replies.account
              case Got(AccountReply(_, true)) =>
                e == Effect(tab, Redirected(if redirect.Some? then redirect.value else Account), [])
              case Got(AccountReply(email, false)) => e == Effect(tab, Rendered(NameStep(email)), [])
              case Failed(failure) =>
                if failure == Unauthorized then
                  e == Effect(tab.(bearer := None), Rendered(SignedOutLogin), [Cleared])
                else e == Effect(tab, Crashed(failure), [])
  {
  }

  /** Without a bearer a guarded location leads to the login, and an authorization stores its request for then. */
  lemma GuardsDo(tab: Tab, l: Location, replies: Replies)
    requires IsGuarded(l) && (tab.bearer.None? || tab.bearer.value == "")
    ensures var e := Visit(tab, l, replies);
            e == if l.Authorize? && RequestOf(l.search).Some? then
                   Effect(Tab(tab.bearer, l.search), Redirected(Login(Some(l), false, None)), [Stored(l.search.value)])
                 else Effect(tab, Redirected(Login(Some(l), false, None)), [])
  {
  }

  /** Of two calls made together this failure decides; an unavailable request is no failure. */
  predicate Decides<T(==)>(call: Reply<T>, account: Reply<AccountReply>, accountFirst: bool, failure: Failure) {
    || (call == Failed(failure) && (account.Got? || !accountFirst))
    || (account == Failed(failure) && (call.Got? || accountFirst))
  }

  predicate DecidesRequest(replies: Replies, failure: Failure) {
    if replies.request == Failed(Unavailable) then replies.account == Failed(failure)
    else Decides(replies.request, replies.account, replies.accountFirst, failure)
  }

  /**
   With a bearer an authorization shows what its request's status says. A pending one
   is reported as just signed in exactly when the marker names it, and takes the marker.
   */
  lemma AuthorizeDoes(tab: Tab, search: Option<string>, replies: Replies)
    requires tab.bearer.Some? && tab.bearer.value != ""
    ensures var e := Visit(tab, Authorize(search), replies);
            && (RequestOf(search).None? ==> e == Effect(tab, Rendered(Closed(Expired)), []))
            && (RequestOf(search).Some? ==>
                && (DecidesRequest(replies, Unauthorized) ==>
                    e == Effect(Tab(None, search), Redirected(Login(Some(Authorize(search)), false, None)),
                                [Cleared, Stored(search.value)]))
                && (forall f :: DecidesRequest(replies, f) && f != Unauthorized ==> e == Effect(tab, Crashed(f), []))
                && (replies.account.Got? && (replies.request.Got? || replies.request == Failed(Unavailable)) ==>
                    if replies.request == Got("pending") then
                      var just := tab.marker == search;
                      e == Effect(Tab(tab.bearer, None), Rendered(Pending(search.value, replies.account.value, just)),
                                  [LoadedPending(search.value, just)])
                    else if replies.request == Got("cancelled") then e == Effect(tab, Rendered(Closed(Cancelled)), [])
                    else e == Effect(tab, Rendered(Closed(Expired)), [])))
  {
  }

  /** With a bearer the page behind an approval signs the browser out, and tells when that failed. */
  lemma AuthorizeDoneDoes(tab: Tab, search: Option<string>, replies: Replies)
    requires tab.bearer.Some? && tab.bearer.value != ""
    ensures var e := Visit(tab, AuthorizeDone(search), replies);
            && (RequestOf(search).None? ==> e == Effect(tab, Rendered(Closed(Expired)), []))
            && (RequestOf(search).Some? ==>
                && (DecidesRequest(replies, Unauthorized) ==>
                    e == Effect(Tab(None, tab.marker), Redirected(Login(Some(AuthorizeDone(search)), false, None)), [Cleared]))
                && (forall f :: DecidesRequest(replies, f) && f != Unauthorized ==> e == Effect(tab, Crashed(f), []))
                && (replies.account.Got? && (replies.request.Got? || replies.request == Failed(Unavailable)) ==>
                    if replies.request != Got("approved") then e == Effect(tab, Rendered(Closed(Expired)), [])
                    else if replies.signOut.Got? || replies.signOut == Failed(Unauthorized) then
                      e == Effect(Tab(None, tab.marker), Rendered(SignedIn(replies.account.value.email, false)), [Cleared])
                    else if replies.signOut == Failed(NotFromRelay) then e == Effect(tab, Crashed(NotFromRelay), [])
                    else e == Effect(tab, Rendered(SignedIn(replies.account.value.email, true)), [])))
  {
  }

  /** With a bearer the account shows itself, or leads to the login when it is refused; other pages show themselves. */
  lemma AccountDoes(tab: Tab, path: string, replies: Replies)
    ensures Visit(tab, Open(path), replies) == Effect(tab, Rendered(OpenPage), [])
    ensures tab.bearer.Some? && tab.bearer.value != "" ==>
              var e := Visit(tab, Account, replies);
              && (Decides(replies.sessions, replies.account, replies.accountFirst, Unauthorized) ==>
                  e == Effect(Tab(None, tab.marker), Redirected(Login(Some(Account), false, None)), [Cleared]))
              && (forall f :: Decides(replies.sessions, replies.account, replies.accountFirst, f) && f != Unauthorized ==>
                  e == Effect(tab, Crashed(f), []))
              && (replies.sessions.Got? && replies.account.Got? ==> e == Effect(tab, Rendered(AccountPage), []))
  {
  }

  /** A redirect stores the request of the authorization it leaves, and no other redirect touches the marker. */
  lemma RedirectsStoreTheRequest(tab: Tab, l: Location, replies: Replies)
    requires Visit(tab, l, replies).outcome.Redirected?
    ensures Visit(tab, l, replies).tab.marker
            == if l.Authorize? && RequestOf(l.search).Some? then l.search else tab.marker
  {
  }

  /** Every page shows what the relay answered, and says of the bearer what is stored. */
  lemma PagesTellTheTruth(tab: Tab, l: Location, replies: Replies)
    ensures var e := Visit(tab, l, replies);
            e.outcome.Rendered? ==>
              match e.outcome.page
              case SignedOutLogin => !HasBearer(e.tab)
              case NameStep(email) => HasBearer(e.tab) && replies.account == Got(AccountReply(email, false))
              case Pending(request, account, just) =>
                && HasBearer(e.tab) && l.Authorize? && l.search == Some(request)
                && replies.request == Got("pending") && replies.account == Got(account)
                && (just <==> tab.marker == Some(request)) && e.tab.marker == None
                && e.entries == [LoadedPending(request, just)]
              case SignedIn(email, isStill) =>
                && (HasBearer(e.tab) <==> isStill) && replies.request == Got("approved")
                && replies.account.Got? && replies.account.value.email == email
              case Closed(Cancelled) => l.Authorize? && e.tab == tab && replies.request == Got("cancelled")
              case Closed(Expired) =>
                && e.tab == tab
                && (RequestOf(l.search).None? || replies.request == Failed(Unavailable)
                    || (replies.request.Got? && replies.request.value
                          !in (if l.Authorize? then {"pending", "cancelled"} else {"approved"})))
              case AccountPage => HasBearer(e.tab) && replies.account.Got? && replies.sessions.Got?
              case OpenPage => l.Open? && e.tab == tab
  {
  }

  // ------------------------------------------------------------------- the marker

  /** What happens in a tab: a visit, or a page (of any tab) saving or clearing the shared bearer. */
  datatype Action = Go(l: Location, replies: Replies) | Save(bearer: string) | Clear

  function Act(tab: Tab, action: Action): (after: (Tab, seq<Entry>)) {
    match action
    case Go(l, replies) => var e := Visit(tab, l, replies); (e.tab, e.entries)
    case Save(bearer) => (tab.(bearer := Some(bearer)), [Saved(bearer)])
    case Clear => (tab.(bearer := None), [Cleared])
  }

  function Run(tab: Tab, actions: seq<Action>): (end: (Tab, seq<Entry>)) {
    if actions == [] then (tab, [])
    else
      var before := Run(tab, actions[..|actions| - 1]);
      var after := Act(before.0, actions[|actions| - 1]);
      (after.0, before.1 + after.1)
  }

  lemma {:induction false} RunFirst(tab: Tab, first: Action, rest: seq<Action>)
    ensures var at := Act(tab, first);
            Run(tab, [first] + rest) == (Run(at.0, rest).0, at.1 + Run(at.0, rest).1)
    decreases |rest|
  {
    var all := [first] + rest;
    var at := Act(tab, first);
    if rest == [] {
      assert all[..|all| - 1] == [];
      assert [] + at.1 == at.1 && at.1 + [] == at.1;
    } else {
      var front, last := rest[..|rest| - 1], rest[|rest| - 1];
      RunFirst(tab, first, front);
      assert all[..|all| - 1] == [first] + front;
      Associates(at.1, Run(at.0, front).1, Act(Run(at.0, front).0, last).1);
    }
  }

  /** The visits of a chain of redirects. */
  function Visits(tab: Tab, l: Location, replies: nat -> Replies, n: nat): seq<Action>
    decreases MaxRedirects(HasBearer(tab), l)
  {
    var e := Visit(tab, l, replies(n));
    [Go(l, replies(n))]
    + if e.outcome.Redirected? then
        RedirectsShrink(tab, l, replies(n));
        Visits(e.tab, e.outcome.to, replies, n + 1)
      else []
  }

  /** Following redirects is the run of these visits, one more than there are redirects. */
  lemma {:induction false} FollowIsARun(tab: Tab, l: Location, replies: nat -> Replies, n: nat)
    ensures var (last, redirects) := Follow(tab, l, replies, n);
            && Run(tab, Visits(tab, l, replies, n)) == (last.tab, last.entries)
            && |Visits(tab, l, replies, n)| == redirects + 1
    decreases MaxRedirects(HasBearer(tab), l)
  {
    var e := Visit(tab, l, replies(n));
    if e.outcome.Redirected? {
      RedirectsShrink(tab, l, replies(n));
      FollowIsARun(e.tab, e.outcome.to, replies, n + 1);
      RunFirst(tab, Go(l, replies(n)), Visits(e.tab, e.outcome.to, replies, n + 1));
    } else {
      RunFirst(tab, Go(l, replies(n)), []);
      assert e.entries + [] == e.entries;
    }
  }

  /** A new tab: nothing in session storage, and the bearer other tabs left. */
  predicate IsNew(tab: Tab) { tab.marker == None }

  predicate WritesMarker(e: Entry) { e.Stored? || e.LoadedPending? }

  function Applied(t: Tab, e: Entry): Tab {
    match e
    case Saved(bearer) => t.(bearer := Some(bearer))
    case Cleared => t.(bearer := None)
    case Stored(request) => t.(marker := Some(request))
    case LoadedPending(_, _) => t.(marker := None)
  }

  /** The storage that entries leave behind. */
  function After(tab: Tab, log: seq<Entry>): Tab {
    if log == [] then tab else Applied(After(tab, log[..|log| - 1]), log[|log| - 1])
  }

  /** A request is stored only without a bearer; a pending page loads only with one, and reports the marker. */
  predicate MayFollow(t: Tab, e: Entry) {
    match e
    case Stored(_) => !HasBearer(t)
    case LoadedPending(request, just) => HasBearer(t) && (just <==> t.marker == Some(request))
    case _ => true
  }

  predicate IsLog(tab: Tab, log: seq<Entry>) {
    log == [] || (IsLog(tab, log[..|log| - 1]) && MayFollow(After(tab, log[..|log| - 1]), log[|log| - 1]))
  }

  /** Entries that may follow one another from a tab, and leave it as another. */
  predicate Leads(tab: Tab, entries: seq<Entry>, after: Tab)
    decreases |entries|
  {
    if entries == [] then after == tab
    else MayFollow(tab, entries[0]) && Leads(Applied(tab, entries[0]), entries[1..], after)
  }

  lemma ActLeads(tab: Tab, action: Action)
    ensures var (t, entries) := Act(tab, action);
            Leads(tab, entries, t)
  {
    var (t, entries) := Act(tab, action);
    if |entries| == 2 {
      assert Leads(Applied(tab, entries[0]), entries[1..], t);
    }
  }

  lemma {:induction false} LogGrows(tab: Tab, log: seq<Entry>, entries: seq<Entry>, after: Tab)
    requires IsLog(tab, log) && Leads(After(tab, log), entries, after)
    ensures IsLog(tab, log + entries) && After(tab, log + entries) == after
    decreases |entries|
  {
    if entries == [] {
      assert log + entries == log;
    } else {
      var next := log + [entries[0]];
      assert next[..|log|] == log;
      LogGrows(tab, next, entries[1..], after);
      assert next + entries[1..] == log + entries;
    }
  }

  lemma {:induction false} RunTracks(tab: Tab, actions: seq<Action>)
    ensures var (t, log) := Run(tab, actions);
            IsLog(tab, log) && After(tab, log) == t
  {
    if actions != [] {
      RunTracks(tab, actions[..|actions| - 1]);
      var (before, log) := Run(tab, actions[..|actions| - 1]);
      ActLeads(before, actions[|actions| - 1]);
      var (after, entries) := Act(before, actions[|actions| - 1]);
      LogGrows(tab, log, entries, after);
    }
  }

  /** Entry j stored the request, and no marker was written or pending page loaded since. */
  predicate StandsUntil(log: seq<Entry>, j: nat, i: nat, request: string)
    requires i <= |log|
  {
    j < i && log[j] == Stored(request) && forall k :: j < k < i ==> !WritesMarker(log[k])
  }

  predicate SavedBetween(log: seq<Entry>, j: nat, i: nat)
    requires i <= |log|
  {
    exists k :: j < k < i && log[k].Saved? && log[k].bearer != ""
  }

  lemma {:induction false} LogPrefix(tab: Tab, log: seq<Entry>, i: nat)
    requires IsLog(tab, log) && i < |log|
    ensures IsLog(tab, log[..i]) && MayFollow(After(tab, log[..i]), log[i])
    decreases |log|
  {
    var init := log[..|log| - 1];
    if i < |init| {
      LogPrefix(tab, init, i);
      assert init[..i] == log[..i];
    }
  }

  /** The marker names a request exactly when some entry stored it and it still stands. */
  lemma {:induction false} MarkerStands(tab: Tab, log: seq<Entry>, i: nat, request: string)
    requires IsNew(tab) && i <= |log|
    ensures After(tab, log[..i]).marker == Some(request) <==> exists j :: StandsUntil(log, j, i, request)
    decreases i
  {
    if i > 0 {
      var h: nat := i - 1;
      MarkerStands(tab, log, h, request);
      assert log[..i][..h] == log[..h];
      var e := log[h];
      if e == Stored(request) {
        assert StandsUntil(log, h, i, request);
      } else if !WritesMarker(e) {
        if j :| StandsUntil(log, j, h, request) {
          assert StandsUntil(log, j, i, request);
        } else if j :| StandsUntil(log, j, i, request) {
          assert StandsUntil(log, j, h, request);
        }
      }
    }
  }

  /** A bearer missing then and there now was saved in between. */
  lemma {:induction false} BearerWasSaved(tab: Tab, log: seq<Entry>, j: nat, i: nat)
    requires j < i <= |log|
    requires !HasBearer(After(tab, log[..j])) && log[j].Stored?
    requires HasBearer(After(tab, log[..i]))
    ensures SavedBetween(log, j, i)
    decreases i
  {
    assert log[..i][..i - 1] == log[..i - 1];
    if j + 1 < i {
      var e := log[i - 1];
      if e.Saved? {
        assert j < i - 1 < i && log[i - 1].Saved?;
      } else if !e.Cleared? {
        BearerWasSaved(tab, log, j, i - 1);
      }
    }
  }

  /** What the log of a run says of a fresh sign-in. */
  lemma ReportsMeanIt(tab: Tab, log: seq<Entry>, i: nat)
    requires IsNew(tab) && IsLog(tab, log) && i < |log| && log[i].LoadedPending?
    ensures log[i].isJustSignedIn <==> exists j :: StandsUntil(log, j, i, log[i].request)
    ensures forall j :: StandsUntil(log, j, i, log[i].request) ==> SavedBetween(log, j, i)
  {
    var request := log[i].request;
    LogPrefix(tab, log, i);
    MarkerStands(tab, log, i, request);
    forall j | StandsUntil(log, j, i, request)
      ensures SavedBetween(log, j, i)
    {
      LogPrefix(tab, log, j);
      BearerWasSaved(tab, log, j, i);
    }
  }

  /**
   Over every run of a new tab, the pending page of a visit reports a fresh sign-in
   exactly when its request was stored on the way to the login and that marker still
   stands, and then a bearer was saved after it was stored.
   */
  lemma JustSignedInMeansIt(tab: Tab, actions: seq<Action>, l: Location, replies: Replies)
    requires IsNew(tab)
    requires var page := Visit(Run(tab, actions).0, l, replies).outcome; page.Rendered? && page.page.Pending?
    ensures var (t, log) := Run(tab, actions);
            var page := Visit(t, l, replies).outcome.page;
            && (page.isJustSignedIn <==> exists j :: StandsUntil(log, j, |log|, page.request))
            && (forall j :: StandsUntil(log, j, |log|, page.request) ==> SavedBetween(log, j, |log|))
  {
    var (t, log) := Run(tab, actions);
    var e := Visit(t, l, replies);
    var page := e.outcome.page;
    RunGoesOn(tab, actions, Go(l, replies));
    RunTracks(tab, actions + [Go(l, replies)]);
    PagesTellTheTruth(t, l, replies);
    var after := log + [LoadedPending(page.request, page.isJustSignedIn)];
    ReportsMeanIt(tab, after, |log|);
    StandsBehind(log, after, page.request);
  }

  lemma RunGoesOn(tab: Tab, actions: seq<Action>, action: Action)
    ensures var before, end := Run(tab, actions), Run(tab, actions + [action]);
            end == (Act(before.0, action).0, before.1 + Act(before.0, action).1)
  {
    assert (actions + [action])[..|actions|] == actions;
  }

  lemma StandsBehind(log: seq<Entry>, more: seq<Entry>, request: string)
    requires |more| > |log| && more[..|log|] == log
    ensures forall j :: StandsUntil(more, j, |log|, request) <==> StandsUntil(log, j, |log|, request)
    ensures forall j :: SavedBetween(more, j, |log|) <==> SavedBetween(log, j, |log|)
  {
    assert forall k :: 0 <= k < |log| ==> more[k] == log[k];
  }

  function Stores(log: seq<Entry>): nat {
    if log == [] then 0 else Stores(log[..|log| - 1]) + (if log[|log| - 1].Stored? then 1 else 0)
  }

  function JustPages(log: seq<Entry>): nat {
    if log == [] then 0
    else
      JustPages(log[..|log| - 1])
      + (var e := log[|log| - 1]; if e.LoadedPending? && e.isJustSignedIn then 1 else 0)
  }

  lemma {:induction false} MarkersAreSpent(tab: Tab, log: seq<Entry>)
    requires IsNew(tab) && IsLog(tab, log)
    ensures JustPages(log) + (if After(tab, log).marker.Some? then 1 else 0) <= Stores(log)
  {
    if log != [] {
      MarkersAreSpent(tab, log[..|log| - 1]);
    }
  }

  /** Each stored marker yields at most one page that reports a fresh sign-in, over any run. */
  lemma MarkersServeOnce(tab: Tab, actions: seq<Action>)
    requires IsNew(tab)
    ensures var (t, log) := Run(tab, actions);
            JustPages(log) + (if t.marker.Some? then 1 else 0) <= Stores(log)
  {
    RunTracks(tab, actions);
    MarkersAreSpent(tab, Run(tab, actions).1);
  }
}
