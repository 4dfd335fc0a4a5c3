/** Logging in through the identity provider: one browser, any sequence of logins, callbacks,
    failed token exchanges and waiting. */
module OidcLogin {
  import opened Wrappers

  const STATE_MAX_AGE := 600

  /** What `urlsplit` finds in a URL, as far as it is looked at. */
  datatype SplitUrl = SplitUrl(scheme: string, netloc: string)

  /** How the library splits URLs; the only thing known is that "/" has neither scheme nor host. */
  type Splitter = f: string -> SplitUrl | f("/") == SplitUrl("", "") witness (s: string) => SplitUrl("", "")

  predicate IsSafeNextUrl(split: Splitter, url: string) {
    && 1 <= |url| && url[0] == '/' && !(2 <= |url| && url[1] == '/')
    && '\\' !in url
    && split(url).scheme == "" && split(url).netloc == ""
  }

  /** A signed state; anything else a browser may present does not carry a valid signature. */
  datatype Token = Signed(nonce: nat, nextUrl: string, at: int) | Unsigned(text: string)

  datatype Answer = Redirect(url: string) | InvalidState | ExpiredState | TokenRequestFailed

  function SafeOrRoot(split: Splitter, url: string): string {
    if IsSafeNextUrl(split, url) then url else "/"
  }

  /** What the server answers to a callback, from the cookie and the state it is given. */
  function CallbackAnswer(split: Splitter, cookie: Option<Token>, state: Token, now: int, exchanged: bool): Answer {
    if cookie != Some(state) then InvalidState
    else if state.Unsigned? || now - state.at > STATE_MAX_AGE || now < state.at then ExpiredState
    else if !exchanged then TokenRequestFailed
    else Redirect(SafeOrRoot(split, state.nextUrl))
  }

  datatype Step =
    | Login(nextUrl: string)
    | Callback(state: Token, exchanged: bool)
    | Wait(seconds: nat)
    | DropCookie                 // the browser forgets it, by age or by hand

  datatype Event =
    | LoggedIn(token: Token, requested: string)
    | CalledBack                 // with success
    | Forgotten

  datatype World = World(cookie: Option<Token>, now: int, issued: nat, events: seq<Event>)

  function Initial(now: int): World {
    World(None, now, 0, [])
  }

  function Next(split: Splitter, w: World, s: Step): World {
    match s
    case Login(nextUrl) =>
      var token := Signed(w.issued, SafeOrRoot(split, nextUrl), w.now);
      w.(cookie := Some(token), issued := w.issued + 1, events := w.events + [LoggedIn(token, nextUrl)])
    case Callback(state, exchanged) =>
      if CallbackAnswer(split, w.cookie, state, w.now, exchanged).Redirect?
      then w.(cookie := None, events := w.events + [CalledBack])
      else w
    case Wait(seconds) => w.(now := w.now + seconds)
    case DropCookie => w.(cookie := None, events := w.events + [Forgotten])
  }

  function After(split: Splitter, w: World, run: seq<Step>): World
    decreases |run|
  {
    if run == [] then w else After(split, Next(split, w, run[0]), run[1..])
  }

  /** The k-th event is the latest login, and its state has neither been used nor forgotten. */
  ghost predicate Pending(events: seq<Event>, k: nat) {
    k == |events| - 1 && events[k].LoggedIn?
  }

  ghost predicate Inv(split: Splitter, w: World) {
    && (forall k | 0 <= k < |w.events| && w.events[k].LoggedIn? ::
          var t := w.events[k].token;
          t.Signed? && t.nextUrl == SafeOrRoot(split, w.events[k].requested) && t.nonce < w.issued && t.at <= w.now)
    && (forall j, k | 0 <= j < k < |w.events| && w.events[j].LoggedIn? && w.events[k].LoggedIn? ::
          w.events[j].token.nonce < w.events[k].token.nonce)
    && w.cookie == (if w.events != [] && w.events[|w.events| - 1].LoggedIn?
                    then Some(w.events[|w.events| - 1].token) else None)
  }

  lemma {:induction false} InvAlong(split: Splitter, w: World, run: seq<Step>)
    requires Inv(split, w)
    ensures Inv(split, After(split, w, run))
    decreases |run|
  {
    if run != [] {
      InvAlong(split, Next(split, w, run[0]), run[1..]);
    }
  }

  /** "/" is always acceptable, so checking twice is checking once. */
  lemma SecondCheckChangesNothing(split: Splitter, url: string)
    ensures SafeOrRoot(split, SafeOrRoot(split, url)) == SafeOrRoot(split, url)
  {
  }

  /** A path on this very host: it begins with one slash and not with two, has no backslash, and the library finds
      neither a scheme nor a host in it. */
  ghost predicate StaysHere(split: Splitter, url: string) {
    && url != "" && url[0] == '/' && (|url| >= 2 ==> url[1] != '/')
    && (forall c | c in url :: c != '\\')
    && split(url) == SplitUrl("", "")
  }

  /** The k-th event is a login that is still pending, and this is its state. */
  ghost predicate PendingState(w: World, k: nat, state: Token) {
    Pending(w.events, k) && w.events[k].token == state
  }

  /** The state is that of the latest login and of no other, and the URL is the one that login asked for if that stays
      on this host, else "/". */
  ghost predicate LatestLogin(split: Splitter, w: World, state: Token, url: string) {
    && w.events != []
    && var k: nat := |w.events| - 1;
    && PendingState(w, k, state)
    && url == (if StaysHere(split, w.events[k].requested) then w.events[k].requested else "/")
    && forall j | 0 <= j < k && w.events[j].LoggedIn? :: w.events[j].token != state
  }

  /** After any run, a callback succeeds exactly for the state of the latest login, not yet used by a successful
      callback nor forgotten by the browser, at most 600 seconds old, and with a successful exchange; that state
      belongs to that login alone; and it leads to the URL that login asked for if that stays on this host, else to
      "/". Each refusal has its own cause. */
  lemma CallbackBelongsToLatestLogin(split: Splitter, start: int, run: seq<Step>, state: Token, exchanged: bool)
    ensures var w := After(split, Initial(start), run);
      var answer := CallbackAnswer(split, w.cookie, state, w.now, exchanged);
      var pending := exists k: nat :: PendingState(w, k, state);
      && (answer == InvalidState <==> !pending)
      && (pending ==> state.Signed?)
      && (answer == ExpiredState <==> pending && w.now - state.at > 600)
      && (answer == TokenRequestFailed <==> pending && w.now - state.at <= 600 && !exchanged)
      && (answer.Redirect? <==> pending && w.now - state.at <= 600 && exchanged)
      && (answer.Redirect? ==> StaysHere(split, answer.url) && LatestLogin(split, w, state, answer.url))
  {
    InvAlong(split, Initial(start), run);
    var w := After(split, Initial(start), run);
    if k: nat :| PendingState(w, k, state) {
      assert w.cookie == Some(state) && state.at <= w.now;
      assert state.nextUrl == SafeOrRoot(split, w.events[k].requested);
      SecondCheckChangesNothing(split, w.events[k].requested);
      assert PendingState(w, |w.events| - 1, state);
    } else if w.cookie == Some(state) {
      assert PendingState(w, |w.events| - 1, state);
    }
  }

  /** The whole way, after any run: a login issues a state that no login before it has had; within 600 seconds it leads
      to the URL asked for, if that stays on this host, and uses up the cookie; later it has expired. */
  lemma LoginThenCallback(split: Splitter, start: int, run: seq<Step>, nextUrl: string, seconds: nat)
    ensures var w := After(split, Initial(start), run);
      var loggedIn := Next(split, w, Step.Login(nextUrl));
      && loggedIn.cookie.Some?
      && (forall j | 0 <= j < |w.events| && w.events[j].LoggedIn? :: w.events[j].token != loggedIn.cookie.value)
      && var state, later := loggedIn.cookie.value, Next(split, loggedIn, Wait(seconds));
      && later.now == w.now + seconds && later.cookie == Some(state)
      && CallbackAnswer(split, later.cookie, state, later.now, true) ==
         (if seconds > 600 then ExpiredState else Redirect(if StaysHere(split, nextUrl) then nextUrl else "/"))
      && Next(split, later, Step.Callback(state, true)).cookie == (if seconds > 600 then Some(state) else None)
  {
    InvAlong(split, Initial(start), run);
  }

  /** A failed token exchange leaves everything as it was, and repeating the callback in time still works;
      after a successful callback no state works until the next login. */
  lemma FailedExchangeCanBeRepeated(split: Splitter, w: World, state: Token, again: Token)
    ensures CallbackAnswer(split, w.cookie, state, w.now, false) == TokenRequestFailed
       <==> CallbackAnswer(split, w.cookie, state, w.now, true).Redirect?
    ensures Next(split, w, Step.Callback(state, false)) == w
    ensures CallbackAnswer(split, w.cookie, state, w.now, true).Redirect? ==>
      CallbackAnswer(split, Next(split, w, Step.Callback(state, true)).cookie, again, w.now, true) == InvalidState
  {
  }

  class Browser {
    var oidcState: Option<Token>

    constructor ()
      ensures oidcState == None
    {
      oidcState := None;
    }
  }

  class OpenIDConnect {
    const split: Splitter
    var issued: nat

    constructor (split: Splitter)
      ensures this.split == split && issued == 0
    {
      this.split := split;
      issued := 0;
    }

    method Login(browser: Browser, nextUrl: string, now: int)
      modifies this, browser
      ensures browser.oidcState == Some(Signed(old(issued), SafeOrRoot(split, nextUrl), now))
      ensures issued == old(issued) + 1
    {
      var safeNextUrl := if IsSafeNextUrl(split, nextUrl) then nextUrl else "/";
      var token := Signed(issued, safeNextUrl, now);
      issued := issued + 1;
      browser.oidcState := Some(token);
    }

    method Callback(browser: Browser, state: Token, now: int, exchanged: bool) returns (answer: Answer)
      modifies browser
      ensures answer == CallbackAnswer(split, old(browser.oidcState), state, now, exchanged)
      ensures browser.oidcState == if answer.Redirect? then None else old(browser.oidcState)
    {
      var stateCookie := browser.oidcState;
      if stateCookie == None || stateCookie.value != state {
        return InvalidState;
      }
      if state.Unsigned? || now - state.at > STATE_MAX_AGE || now < state.at {
        return ExpiredState;
      }
      var nextUrl := state.nextUrl;
      if !IsSafeNextUrl(split, nextUrl) {
        nextUrl := "/";
      }
      if !exchanged {
        return TokenRequestFailed;
      }
      browser.oidcState := None;
      return Redirect(nextUrl);
    }
  }
}
