/** The client's SPNEGO flow: a request, at most two answered 401 challenges, and the decision
    whether the final response may be trusted. The server and the GSS library are arbitrary. */
module Spnego {
  import opened Wrappers
  import opened Base64
  import opened Negotiate

  const HTTP_UNAUTHORIZED := 401
  const MAX_401_RETRIES := 2
  const HTTP_ERROR_THRESHOLD := 400

  datatype Mode = Required | Optional | Disabled

  datatype Config = Config(mode: Mode, opportunisticAuth: bool, sanitize: bool)

  datatype Reply = Reply(
    status: int, headers: map<string, string>, content: Bytes, cookies: map<string, string>, streamConsumed: bool)

  /** A context is known by when it was made; `token` is what its first step produced. */
  datatype Context = Context(serial: nat, token: Bytes)

  /** The GSS library: whether the n-th context can be made, what its first step produces (None for a GSSError),
      and whether it accepts a server's token. Any behaviour in one flow is such a triple of functions. */
  datatype Gss = Gss(
    makes: nat -> bool,
    initiates: (nat, Option<Bytes>) -> Option<Bytes>,
    accepts: (nat, Bytes) -> bool)

  /** The server's answer to the n-th request of the flow with the given Authorization header. */
  type Server = (nat, Option<string>) -> Reply

  datatype Call =
    | MakeContext(serial: nat)
    | InitStep(serial: nat, input: Option<Bytes>)
    | AcceptStep(serial: nat, token: Bytes)

  /** One request and its answer, with the context that was current when the request was sent. */
  datatype Exchange = Exchange(header: Option<string>, ctx: Option<Context>, reply: Reply)

  datatype State = State(header: Option<string>, ctx: Option<Context>, made: nat, calls: seq<Call>, log: seq<Exchange>)

  datatype Ending = Returned | SpnegoExchangeError | MutualAuthenticationError | DecodeError

  datatype Flow = Flow(state: State, reply: Option<Reply>, ending: Ending)

  function Challenged(r: Reply): Challenge {
    NegotiateValue(if "www-authenticate" in r.headers then Some(r.headers["www-authenticate"]) else None)
  }

  /** An empty token is passed to the library as no token. */
  function NonEmpty(token: Bytes): Option<Bytes> {
    if token == [] then None else Some(token)
  }

  /** Carries one header over, if it is there. */
  function Copied(to: map<string, string>, headers: map<string, string>, name: string): map<string, string> {
    if name in headers then to[name := headers[name]] else to
  }

  function Sanitized(r: Reply): Reply {
    var headers := Copied(Copied(map["content-length" := "0"], r.headers, "date"), r.headers, "server");
    Reply(r.status, headers, [], map[], true)
  }

  /** A new context and its header; on a GSSError the old ones stay. */
  function Authorize(gss: Gss, st: State, input: Option<Bytes>): State {
    var made := st.(made := st.made + 1, calls := st.calls + [MakeContext(st.made)]);
    if !gss.makes(st.made) then made
    else
      var stepped := made.(calls := made.calls + [InitStep(st.made, input)]);
      match gss.initiates(st.made, input)
      case None => stepped
      case Some(token) => stepped.(header := Some(HeaderValue(token)), ctx := Some(Context(st.made, token)))
  }

  function Exchanged(server: Server, st: State): State {
    st.(log := st.log + [Exchange(st.header, st.ctx, server(|st.log|, st.header))])
  }

  function LastReply(st: State): Reply
    requires st.log != []
  {
    st.log[|st.log| - 1].reply
  }

  function MutualAuthSpec(cfg: Config, gss: Gss, st: State): Flow
    requires st.log != [] && st.ctx.Some?
  {
    var r := LastReply(st);
    if cfg.mode == Disabled then Flow(st, Some(r), Returned)
    else match Challenged(r)
      case Malformed => Flow(st, Some(r), DecodeError)
      case Token(t) =>
        var st' := st.(calls := st.calls + [AcceptStep(st.ctx.value.serial, t)]);
        Flow(st', Some(r), if gss.accepts(st.ctx.value.serial, t) then Returned else MutualAuthenticationError)
      case NoChallenge =>
        if r.status >= HTTP_ERROR_THRESHOLD || cfg.mode == Optional then
          Flow(st, Some(if cfg.mode == Required && cfg.sanitize then Sanitized(r) else r), Returned)
        else Flow(st, Some(r), MutualAuthenticationError)
  }

  /** The loop, from a state whose last exchange is the response to handle; one response fewer than there are
      exchanges was a 401 that has been answered. */
  function LoopSpec(cfg: Config, gss: Gss, server: Server, st: State): (f: Flow)
    requires 1 <= |st.log| <= MAX_401_RETRIES + 1
    ensures f.reply.Some? && f.state.log != []
    decreases MAX_401_RETRIES + 1 - |st.log|
  {
    var r := LastReply(st);
    if r.status == HTTP_UNAUTHORIZED && |st.log| - 1 < MAX_401_RETRIES then
      match Challenged(r)
      case NoChallenge => Flow(st, Some(r), Returned)
      case Malformed => Flow(st, Some(r), DecodeError)
      case Token(t) => LoopSpec(cfg, gss, server, Exchanged(server, Authorize(gss, st, NonEmpty(t))))
    else if r.status == HTTP_UNAUTHORIZED || st.ctx == None then Flow(st, Some(r), Returned)
    else MutualAuthSpec(cfg, gss, st)
  }

  function FlowSpec(cfg: Config, gss: Gss, server: Server, initial: Option<string>): (f: Flow)
    ensures f.reply.Some? <==> f.state.log != []
  {
    var st0 := State(initial, None, 0, [], []);
    var st := if cfg.opportunisticAuth then Authorize(gss, st0, None) else st0;
    if cfg.opportunisticAuth && st.ctx == None then Flow(st, None, SpnegoExchangeError)
    else LoopSpec(cfg, gss, server, Exchanged(server, st))
  }

  // What holds of every flow.

  /** The header sent is the one the caller had until a context exists, and then that context's token. */
  predicate HeaderAgrees(initial: Option<string>, header: Option<string>, ctx: Option<Context>) {
    header == if ctx == None then initial else Some(HeaderValue(ctx.value.token))
  }

  /** The context came out of a successful first step... */
  predicate Succeeded(gss: Gss, call: Call) {
    call.InitStep? && gss.initiates(call.serial, call.input).Some?
  }

  /** ...and no context made later did. */
  ghost predicate Newest(gss: Gss, calls: seq<Call>, ctx: Option<Context>) {
    match ctx
    case None => forall c | c in calls :: !Succeeded(gss, c)
    case Some(cx) =>
      && (exists c :: c in calls && c.InitStep? && c.serial == cx.serial
            && gss.initiates(c.serial, c.input) == Some(cx.token))
      && (forall c | c in calls && Succeeded(gss, c) :: c.serial <= cx.serial)
  }

  /** The header of the next request answers the challenge in e, or is the old one after a failed GSS step. */
  ghost predicate Answers(gss: Gss, e: Exchange, next: Option<Context>) {
    && e.reply.status == HTTP_UNAUTHORIZED && Challenged(e.reply).Token?
    && (next == e.ctx
        || (next.Some?
            && gss.initiates(next.value.serial, NonEmpty(Challenged(e.reply).token)) == Some(next.value.token)))
  }

  ghost predicate Sound(gss: Gss, server: Server, initial: Option<string>, st: State) {
    && HeaderAgrees(initial, st.header, st.ctx)
    && Newest(gss, st.calls, st.ctx)
    && (forall c | c in st.calls :: !c.AcceptStep? && c.serial < st.made)
    && (forall k | 0 <= k < |st.log| ::
          && HeaderAgrees(initial, st.log[k].header, st.log[k].ctx)
          && st.log[k].reply == server(k, st.log[k].header))
    && (forall k | 0 < k < |st.log| :: Answers(gss, st.log[k - 1], st.log[k].ctx))
  }

  lemma AuthorizeSound(gss: Gss, server: Server, initial: Option<string>, st: State, input: Option<Bytes>)
    requires Sound(gss, server, initial, st)
    ensures var st' := Authorize(gss, st, input);
      && Sound(gss, server, initial, st') && st'.log == st.log
      && (st'.ctx == st.ctx
          || (st'.ctx.Some? && gss.initiates(st'.ctx.value.serial, input) == Some(st'.ctx.value.token)))
  {
    var st' := Authorize(gss, st, input);
    if st'.ctx != st.ctx {
      assert InitStep(st.made, input) in st'.calls;
    }
    if st.ctx.Some? && st'.ctx == st.ctx {
      var c :| c in st.calls && c.InitStep? && c.serial == st.ctx.value.serial
        && gss.initiates(c.serial, c.input) == Some(st.ctx.value.token);
      assert c in st'.calls;
    }
  }

  lemma ExchangedSound(gss: Gss, server: Server, initial: Option<string>, st: State)
    requires Sound(gss, server, initial, st)
    requires st.log != [] ==> Answers(gss, st.log[|st.log| - 1], st.ctx)
    ensures Sound(gss, server, initial, Exchanged(server, st))
  {
    var log := Exchanged(server, st).log;
    assert forall k | 0 <= k < |st.log| :: log[k] == st.log[k];
  }

  /** The end of a flow that got an answer: the loop's last state, and what the final decision added to it. */
  ghost predicate Decided(cfg: Config, gss: Gss, st: State, f: Flow) {
    && st.log != [] && f.state.log == st.log && f.state.ctx == st.ctx && f.state.header == st.header
    && var r := LastReply(st);
    && f.reply.Some? && f.ending != SpnegoExchangeError
    && if r.status == HTTP_UNAUTHORIZED && |st.log| <= MAX_401_RETRIES then
         && !Challenged(r).Token? && f.state == st
         && f.reply == Some(r) && f.ending == (if Challenged(r).NoChallenge? then Returned else DecodeError)
       else if r.status == HTTP_UNAUTHORIZED || st.ctx == None then f == Flow(st, Some(r), Returned)
       else f == MutualAuthSpec(cfg, gss, st)
  }

  /** One round of the loop: a 401 with a challenge is answered by a request that is in order. */
  lemma RoundSound(gss: Gss, server: Server, initial: Option<string>, st: State)
    requires st.log != [] && st.ctx == st.log[|st.log| - 1].ctx && Sound(gss, server, initial, st)
    requires LastReply(st).status == HTTP_UNAUTHORIZED && Challenged(LastReply(st)).Token?
    ensures var st' := Exchanged(server, Authorize(gss, st, NonEmpty(Challenged(LastReply(st)).token)));
      Sound(gss, server, initial, st') && |st'.log| == |st.log| + 1 && st'.ctx == st'.log[|st.log|].ctx
  {
    var input := NonEmpty(Challenged(LastReply(st)).token);
    AuthorizeSound(gss, server, initial, st, input);
    var authorized := Authorize(gss, st, input);
    assert Answers(gss, st.log[|st.log| - 1], authorized.ctx);
    ExchangedSound(gss, server, initial, authorized);
  }

  lemma {:induction false} HandleResponseSound(
      cfg: Config, gss: Gss, server: Server, initial: Option<string>, st: State) returns (st': State)
    requires 1 <= |st.log| <= MAX_401_RETRIES + 1 && st.ctx == st.log[|st.log| - 1].ctx
    requires Sound(gss, server, initial, st)
    ensures Sound(gss, server, initial, st') && |st'.log| <= 3
    ensures Decided(cfg, gss, st', LoopSpec(cfg, gss, server, st))
    decreases MAX_401_RETRIES + 1 - |st.log|
  {
    var r := LastReply(st);
    if r.status == HTTP_UNAUTHORIZED && |st.log| - 1 < MAX_401_RETRIES && Challenged(r).Token? {
      RoundSound(gss, server, initial, st);
      var next := Exchanged(server, Authorize(gss, st, NonEmpty(Challenged(r).token)));
      st' := HandleResponseSound(cfg, gss, server, initial, next);
    } else {
      st' := st;
    }
  }

  lemma RunSound(cfg: Config, gss: Gss, server: Server, initial: Option<string>) returns (st: State)
    ensures Sound(gss, server, initial, st)
    ensures var f := FlowSpec(cfg, gss, server, initial);
      if f.reply == None
      then f.ending == SpnegoExchangeError && f.state == st && st.log == [] && st.ctx == None && cfg.opportunisticAuth
      else |st.log| <= 3 && Decided(cfg, gss, st, f)
  {
    var st0 := State(initial, None, 0, [], []);
    st := st0;
    if cfg.opportunisticAuth {
      AuthorizeSound(gss, server, initial, st0, None);
      st := Authorize(gss, st0, None);
    }
    if !(cfg.opportunisticAuth && st.ctx == None) {
      ExchangedSound(gss, server, initial, st);
      st := HandleResponseSound(cfg, gss, server, initial, Exchanged(server, st));
    }
  }

  /** Every request carries the token of the context that is current when it is sent, also when a later GSS step
      failed and the old header is sent again; every request after the first answers a challenge; and no server gets
      more than three. */
  lemma HeaderIsTheContextsToken(cfg: Config, gss: Gss, server: Server, initial: Option<string>)
    ensures var log := FlowSpec(cfg, gss, server, initial).state.log;
      && |log| <= 3
      && (forall k | 0 <= k < |log| :: log[k].reply == server(k, log[k].header))
      && (forall k | 0 <= k < |log| :: HeaderAgrees(initial, log[k].header, log[k].ctx))
      && (forall k | 0 < k < |log| :: Answers(gss, log[k - 1], log[k].ctx))
  {
    var st := RunSound(cfg, gss, server, initial);
  }

  // Every challenge is answered.

  /** The context and the header of a request that the n-th context was tried for, with the token of the challenge
      before it or None: the new ones if the library made the context and its first step gave a token, else those
      that the request before had. */
  ghost predicate Steps(
      gss: Gss, n: nat, input: Option<Bytes>, ctx: Option<Context>, header: Option<string>, e: Exchange)
  {
    if gss.makes(n) && gss.initiates(n, input).Some? then
      var t := gss.initiates(n, input).value;
      e.ctx == Some(Context(n, t)) && e.header == Some("Negotiate " + Encode(t))
    else e.ctx == ctx && e.header == header
  }

  /** The k-th request answers a 401 with the next context; an empty challenge is passed on as None. The number of
      contexts tried before the first request is `first`. */
  ghost predicate RoundAnswered(gss: Gss, first: nat, log: seq<Exchange>, k: nat)
    requires 0 < k < |log|
  {
    && log[k - 1].reply.status == 401 && Challenged(log[k - 1].reply).Token?
    && var token := Challenged(log[k - 1].reply).token;
       Steps(gss, first + k - 1, if token == [] then None else Some(token), log[k - 1].ctx, log[k - 1].header, log[k])
  }

  ghost predicate RoundsAnswered(gss: Gss, first: nat, log: seq<Exchange>) {
    forall k: nat | 0 < k < |log| :: RoundAnswered(gss, first, log, k)
  }

  /** The state is that of the last request. */
  ghost predicate Sent(first: nat, st: State) {
    && st.log != [] && st.made == first + |st.log| - 1
    && st.ctx == st.log[|st.log| - 1].ctx && st.header == st.log[|st.log| - 1].header
  }

  lemma RoundIsAnswered(gss: Gss, server: Server, first: nat, st: State, token: Bytes)
    requires Sent(first, st) && RoundsAnswered(gss, first, st.log)
    requires LastReply(st).status == HTTP_UNAUTHORIZED && Challenged(LastReply(st)) == Token(token)
    ensures var st' := Exchanged(server, Authorize(gss, st, NonEmpty(token)));
      Sent(first, st') && RoundsAnswered(gss, first, st'.log) && |st'.log| == |st.log| + 1
  {
    var log := Exchanged(server, Authorize(gss, st, NonEmpty(token))).log;
    forall k: nat | 0 < k < |log|
      ensures RoundAnswered(gss, first, log, k)
    {
      if k < |st.log| {
        assert RoundAnswered(gss, first, st.log, k);
      }
    }
  }

  lemma {:induction false} LoopAnswers(cfg: Config, gss: Gss, server: Server, first: nat, st: State)
    requires |st.log| <= MAX_401_RETRIES + 1 && Sent(first, st) && RoundsAnswered(gss, first, st.log)
    ensures var log := LoopSpec(cfg, gss, server, st).state.log;
      RoundsAnswered(gss, first, log) && st.log <= log
    decreases MAX_401_RETRIES + 1 - |st.log|
  {
    var r := LastReply(st);
    if r.status == HTTP_UNAUTHORIZED && |st.log| - 1 < MAX_401_RETRIES && Challenged(r).Token? {
      RoundIsAnswered(gss, server, first, st, Challenged(r).token);
      LoopAnswers(cfg, gss, server, first, Exchanged(server, Authorize(gss, st, NonEmpty(Challenged(r).token))));
    }
  }

  /** What every request of a flow carries, as far as the library gives it: the first one the token of a context made
      beforehand if the flow is opportunistic, and otherwise the caller's header; every later one the token with which
      the next context answers the challenge before it, or what the request before carried if that fails. An
      opportunistic flow without a first token sends nothing, and no other flow does so. */
  lemma ChallengesAreAnswered(cfg: Config, gss: Gss, server: Server, initial: Option<string>)
    ensures var f := FlowSpec(cfg, gss, server, initial);
      var before := if gss.makes(0) then gss.initiates(0, None) else None;
      && (f.state.log == [] <==> cfg.opportunisticAuth && before == None)
      && (f.state.log == [] ==> f.ending == SpnegoExchangeError)
      && RoundsAnswered(gss, if cfg.opportunisticAuth then 1 else 0, f.state.log)
      && (f.state.log != [] ==>
            if cfg.opportunisticAuth then Steps(gss, 0, None, None, initial, f.state.log[0])
            else f.state.log[0].ctx == None && f.state.log[0].header == initial)
  {
    var st0 := State(initial, None, 0, [], []);
    var st := if cfg.opportunisticAuth then Authorize(gss, st0, None) else st0;
    if !cfg.opportunisticAuth || st.ctx.Some? {
      LoopAnswers(cfg, gss, server, if cfg.opportunisticAuth then 1 else 0, Exchanged(server, st));
    }
  }

  /** A response without the header offers nothing; one that carries a printed token offers that token. */
  lemma ChallengeIsInTheHeader(r: Reply, t: Bytes)
    ensures "www-authenticate" !in r.headers ==> Challenged(r) == NoChallenge
    ensures "www-authenticate" in r.headers && r.headers["www-authenticate"] == "Negotiate " + Encode(t) ==>
      Challenged(r) == Token(t)
  {
    HeaderIsUnderstood(None, Some(HeaderValue(t)), Context(0, t));
  }

  /** A server that reads a header which agrees with a context gets that context's token. */
  lemma HeaderIsUnderstood(initial: Option<string>, header: Option<string>, ctx: Context)
    requires HeaderAgrees(initial, header, Some(ctx))
    ensures NegotiateValue(header) == Token(ctx.token)
  {
    TokenRoundTrip("", ctx.token, "");
    assert "" + HeaderValue(ctx.token) + "" == HeaderValue(ctx.token);
  }

  lemma FinalCheckDecided(cfg: Config, gss: Gss, st: State, f: Flow, serial: nat, t: Bytes)
    requires Decided(cfg, gss, st, f) && forall c | c in st.calls :: !c.AcceptStep?
    ensures AcceptStep(serial, t) in f.state.calls
       <==> cfg.mode != Disabled && Decidable(f)
            && f.state.ctx.value.serial == serial && Challenged(LastReply(f.state)) == Token(t)
  {
    assert LastReply(f.state) == LastReply(st);
  }

  /** The library is asked about a token after the final response exactly when the modes make a difference, for that
      response's token and the current context. */
  lemma FinalCheck(cfg: Config, gss: Gss, server: Server, initial: Option<string>, serial: nat, t: Bytes)
    ensures var f := FlowSpec(cfg, gss, server, initial);
      AcceptStep(serial, t) in f.state.calls
      <==> cfg.mode != Disabled && Decidable(f)
           && f.state.ctx.value.serial == serial && Challenged(LastReply(f.state)) == Token(t)
  {
    var st := RunSound(cfg, gss, server, initial);
    var f := FlowSpec(cfg, gss, server, initial);
    if f.reply.Some? {
      FinalCheckDecided(cfg, gss, st, f, serial, t);
    }
  }

  lemma MalformedDecided(cfg: Config, gss: Gss, st: State, f: Flow)
    requires Decided(cfg, gss, st, f)
    ensures f.ending == DecodeError
       <==> Challenged(LastReply(f.state)) == Malformed
            && if LastReply(f.state).status == 401 then |f.state.log| <= 2
               else cfg.mode != Disabled && f.state.ctx.Some?
  {
    assert LastReply(f.state) == LastReply(st);
  }

  /** A token that cannot be decoded is an error exactly where the flow looks at it: in a 401 that would be answered,
      and in a final response that would be checked. */
  lemma MalformedIsAnError(cfg: Config, gss: Gss, server: Server, initial: Option<string>)
    ensures var f := FlowSpec(cfg, gss, server, initial);
      f.ending == DecodeError
      <==> f.state.log != [] && Challenged(LastReply(f.state)) == Malformed
           && if LastReply(f.state).status == 401 then |f.state.log| <= 2
              else cfg.mode != Disabled && f.state.ctx.Some?
  {
    var st := RunSound(cfg, gss, server, initial);
    var f := FlowSpec(cfg, gss, server, initial);
    if f.reply.Some? {
      MalformedDecided(cfg, gss, st, f);
    }
  }

  /** A 401 is handed back exactly when no challenge was offered in it or two challenges were already answered. */
  lemma UnauthorizedHandedBack(cfg: Config, gss: Gss, server: Server, initial: Option<string>)
    ensures var f := FlowSpec(cfg, gss, server, initial);
      f.reply.Some? && f.reply.value.status == 401 ==>
        (f.ending == Returned <==> Challenged(LastReply(f.state)).NoChallenge? || |f.state.log| == 3)
  {
    var st := RunSound(cfg, gss, server, initial);
  }

  /** The final response carried a token that the most recently built context accepted. */
  ghost predicate Authenticated(gss: Gss, f: Flow)
    requires f.state.log != []
  {
    && f.state.ctx.Some? && Challenged(LastReply(f.state)).Token?
    && gss.accepts(f.state.ctx.value.serial, Challenged(LastReply(f.state)).token)
  }

  /** The current context at the end is the newest one that could be built, whatever the ending. */
  lemma ContextIsNewest(cfg: Config, gss: Gss, server: Server, initial: Option<string>)
    ensures var f := FlowSpec(cfg, gss, server, initial); Newest(gss, f.state.calls, f.state.ctx)
  {
    var st := RunSound(cfg, gss, server, initial);
    var f := FlowSpec(cfg, gss, server, initial);
    if f.state.calls != st.calls {
      assert forall c | c in f.state.calls :: c in st.calls || c.AcceptStep?;
      assert st.calls <= f.state.calls;
    }
  }

  /** A flow whose final response is no 401 and that has a context: the case the modes differ in. */
  ghost predicate Decidable(f: Flow) {
    f.reply.Some? && f.state.log != [] && LastReply(f.state).status != 401 && f.state.ctx.Some?
  }

  /** REQUIRED hands back a response below 400 exactly when it is authenticated, and as it is; an error response
      that offers no token is handed back, but only emptied. */
  ghost predicate RequiredTable(cfg: Config, gss: Gss, f: Flow)
    requires f.state.log != []
  {
    var r := LastReply(f.state);
    && (r.status < 400 ==>
          (f.ending == Returned <==> Authenticated(gss, f)) && (f.ending == Returned ==> f.reply == Some(r)))
    && (r.status >= 400 && Challenged(r).NoChallenge? ==>
          f.ending == Returned && f.reply == Some(if cfg.sanitize then Sanitized(r) else r))
  }

  /** OPTIONAL raises exactly when a token is there and rejected, and never changes the response. */
  ghost predicate OptionalTable(gss: Gss, f: Flow)
    requires f.state.log != []
  {
    && (f.ending == MutualAuthenticationError <==> Challenged(LastReply(f.state)).Token? && !Authenticated(gss, f))
    && f.reply == Some(LastReply(f.state))
  }

  lemma DecidedByMode(cfg: Config, gss: Gss, st: State, f: Flow)
    requires Decided(cfg, gss, st, f) && Decidable(f)
    ensures cfg.mode == Required ==> RequiredTable(cfg, gss, f)
    ensures cfg.mode == Optional ==> OptionalTable(gss, f)
  {
    assert LastReply(f.state) == LastReply(st);
  }

  lemma UndecidedNeverRaises(cfg: Config, gss: Gss, st: State, f: Flow)
    requires Decided(cfg, gss, st, f) && !Decidable(f)
    ensures f.ending != MutualAuthenticationError && f.reply == Some(LastReply(st))
  {
  }

  lemma RequiredMode(cfg: Config, gss: Gss, server: Server, initial: Option<string>)
    requires cfg.mode == Required
    ensures var f := FlowSpec(cfg, gss, server, initial);
      Decidable(f) ==> RequiredTable(cfg, gss, f)
  {
    var f := FlowSpec(cfg, gss, server, initial);
    if Decidable(f) {
      var st := RunSound(cfg, gss, server, initial);
      DecidedByMode(cfg, gss, st, f);
    }
  }

  /** So in every flow: OPTIONAL raises exactly when a final response that is no 401 offers the context a token that is
      rejected, and any response it hands back is the last one as it came. */
  lemma OptionalMode(cfg: Config, gss: Gss, server: Server, initial: Option<string>)
    requires cfg.mode == Optional
    ensures var f := FlowSpec(cfg, gss, server, initial);
      && (f.ending == MutualAuthenticationError
          <==> Decidable(f) && Challenged(LastReply(f.state)).Token? && !Authenticated(gss, f))
      && (f.reply.Some? ==> f.reply == Some(LastReply(f.state)))
  {
    var f := FlowSpec(cfg, gss, server, initial);
    var st := RunSound(cfg, gss, server, initial);
    if Decidable(f) {
      DecidedByMode(cfg, gss, st, f);
    } else if f.reply.Some? {
      assert LastReply(f.state) == LastReply(st);
      UndecidedNeverRaises(cfg, gss, st, f);
    }
  }

  /** DISABLED never raises and never steps the context again. */
  lemma DisabledMode(cfg: Config, gss: Gss, server: Server, initial: Option<string>)
    requires cfg.mode == Disabled
    ensures var f := FlowSpec(cfg, gss, server, initial);
      && f.ending != MutualAuthenticationError
      && (forall c | c in f.state.calls :: !c.AcceptStep?)
      && (Decidable(f) ==> f.ending == Returned && f.reply == Some(LastReply(f.state)))
  {
    var st := RunSound(cfg, gss, server, initial);
  }

  /** Without a context every final response is handed back as it is, in every mode, REQUIRED included: a response
      of a mode that wants authentication has been checked only if a context exists. */
  lemma UncheckedWithoutContext(cfg: Config, gss: Gss, server: Server, initial: Option<string>)
    ensures var f := FlowSpec(cfg, gss, server, initial);
      f.reply.Some? && f.state.log != [] && f.state.ctx == None && LastReply(f.state).status != 401 ==>
        f.ending == Returned && f.reply == Some(LastReply(f.state))
  {
    var st := RunSound(cfg, gss, server, initial);
  }

  /** Such flows exist: a server that asks for nothing is believed, under REQUIRED as well, unless a context was made
      before the first request. */
  lemma RequiredIsNotEnough(cfg: Config, gss: Gss, initial: Option<string>, r: Reply)
    requires !cfg.opportunisticAuth && r.status != HTTP_UNAUTHORIZED
    ensures var f := FlowSpec(cfg, gss, (n, h) => r, initial);
      f.ending == Returned && f.reply == Some(r) && f.state.log != [] && LastReply(f.state) == r && f.state.calls == []
  {
  }

  /** The loop may replace a context but never loses one. */
  lemma {:induction false} ContextIsKept(cfg: Config, gss: Gss, server: Server, st: State)
    requires 1 <= |st.log| <= MAX_401_RETRIES + 1 && st.ctx.Some?
    ensures LoopSpec(cfg, gss, server, st).state.ctx.Some?
    decreases MAX_401_RETRIES + 1 - |st.log|
  {
    var r := LastReply(st);
    if r.status == HTTP_UNAUTHORIZED && |st.log| - 1 < MAX_401_RETRIES && Challenged(r).Token? {
      ContextIsKept(cfg, gss, server, Exchanged(server, Authorize(gss, st, NonEmpty(Challenged(r).token))));
    }
  }

  /** What REQUIRED is for: a response below 400 that is handed back has been authenticated. */
  ghost predicate NoErrorUnchecked(cfg: Config, gss: Gss, server: Server, initial: Option<string>) {
    var f := FlowSpec(cfg, gss, server, initial);
    f.ending == Returned && f.state.log != [] && LastReply(f.state).status < HTTP_ERROR_THRESHOLD ==>
      Authenticated(gss, f)
  }

  /** The exact condition: REQUIRED keeps that promise against every server if and only if a context is made before the
      first request. */
  lemma RequiredIsKeptIffOpportunistic(cfg: Config, gss: Gss, initial: Option<string>)
    requires cfg.mode == Required
    ensures (forall server: Server :: NoErrorUnchecked(cfg, gss, server, initial)) <==> cfg.opportunisticAuth
  {
    if cfg.opportunisticAuth {
      forall server: Server
        ensures NoErrorUnchecked(cfg, gss, server, initial)
      {
        var st := Authorize(gss, State(initial, None, 0, [], []), None);
        if st.ctx.Some? {
          ContextIsKept(cfg, gss, server, Exchanged(server, st));
        }
        RequiredMode(cfg, gss, server, initial);
      }
    } else {
      var r := Reply(200, map[], [], map[], false);
      RequiredIsNotEnough(cfg, gss, initial, r);
      assert !NoErrorUnchecked(cfg, gss, (n, h) => r, initial);
    }
  }

  /** Nothing of an untrusted error response survives but its date and server headers. */
  lemma SanitizedKeepsNothing(r: Reply)
    ensures var s := Sanitized(r);
      && s.status == r.status && s.content == [] && s.cookies == map[] && s.streamConsumed
      && s.headers.Keys == {"content-length"} + ({"date", "server"} * r.headers.Keys)
      && s.headers["content-length"] == "0"
      && forall h | h in s.headers && h != "content-length" :: s.headers[h] == r.headers[h]
  {
    var s := Sanitized(r);
    assert "content-length" !in {"date", "server"};
  }

  // The flow as it is executed: requests, responses and contexts are objects, and the header changes in place.

  class Request {
    var authorization: Option<string>

    constructor (authorization: Option<string>)
      ensures this.authorization == authorization
    {
      this.authorization := authorization;
    }
  }

  class Response {
    const status: int
    var headers: map<string, string>
    var content: Bytes
    var cookies: map<string, string>
    var streamConsumed: bool

    constructor (r: Reply)
      ensures View() == r
    {
      status := r.status;
      headers := r.headers;
      content := r.content;
      cookies := r.cookies;
      streamConsumed := r.streamConsumed;
    }

    function View(): Reply
      reads this
    {
      Reply(status, headers, content, cookies, streamConsumed)
    }

    method Sanitize()
      modifies this
      ensures View() == Sanitized(old(View()))
    {
      streamConsumed := true;
      content := [];
      cookies := map[];
      var before := headers;
      headers := map["content-length" := "0"];
      if "date" in before {
        headers := headers["date" := before["date"]];
      }
      if "server" in before {
        headers := headers["server" := before["server"]];
      }
    }
  }

  /** The GSS library and the connection, with a history of what was asked of them. */
  class Environment {
    const gss: Gss
    const server: Server
    var made: nat
    ghost var calls: seq<Call>
    ghost var log: seq<Exchange>

    constructor (gss: Gss, server: Server)
      ensures this.gss == gss && this.server == server && made == 0 && calls == [] && log == []
    {
      this.gss := gss;
      this.server := server;
      made, calls, log := 0, [], [];
    }

    method Send(request: Request, count: nat, ghost ctx: Option<Context>) returns (response: Response)
      requires count == |log|
      modifies this`log
      ensures fresh(response) && response.View() == server(count, request.authorization)
      ensures log == old(log) + [Exchange(request.authorization, ctx, response.View())]
    {
      response := new Response(server(count, request.authorization));
      log := log + [Exchange(request.authorization, ctx, response.View())];
    }
  }

  class HTTPSPNEGOAuth {
    const cfg: Config

    constructor (cfg: Config)
      ensures this.cfg == cfg
    {
      this.cfg := cfg;
    }

    ghost function Current(env: Environment, request: Request, ctx: Option<Context>): State
      reads env, request
    {
      State(request.authorization, ctx, env.made, env.calls, env.log)
    }

    /** None stands for a raised SPNEGOExchangeError. */
    method SetAuthHeader(env: Environment, request: Request, input: Option<Bytes>, ghost ctx: Option<Context>)
      returns (made: Option<Context>)
      modifies env`made, env`calls, request
      ensures Current(env, request, if made == None then ctx else made)
           == Authorize(env.gss, old(Current(env, request, ctx)), input)
      ensures made.Some? ==> made.value.serial == old(env.made)
      ensures made == None ==> Authorize(env.gss, old(Current(env, request, ctx)), input).ctx == ctx
    {
      var serial := env.made;
      env.made := serial + 1;
      env.calls := env.calls + [MakeContext(serial)];
      if !env.gss.makes(serial) {
        return None;
      }
      env.calls := env.calls + [InitStep(serial, input)];
      var token := env.gss.initiates(serial, input);
      if token == None {
        return None;
      }
      request.authorization := Some(HeaderValue(token.value));
      return Some(Context(serial, token.value));
    }

    method HandleMutualAuth(env: Environment, request: Request, response: Response, ctx: Context)
      returns (ending: Ending)
      requires env.log != [] && LastReply(Current(env, request, Some(ctx))) == response.View()
      modifies env`calls, response
      ensures Flow(Current(env, request, Some(ctx)), Some(response.View()), ending)
           == MutualAuthSpec(cfg, env.gss, old(Current(env, request, Some(ctx))))
    {
      if cfg.mode == Disabled {
        return Returned;
      }
      var isHttpError := response.status >= HTTP_ERROR_THRESHOLD;
      var challenge := Challenged(response.View());
      if challenge.Malformed? {
        return DecodeError;
      }
      if challenge.Token? {
        env.calls := env.calls + [AcceptStep(ctx.serial, challenge.token)];
        if !env.gss.accepts(ctx.serial, challenge.token) {
          return MutualAuthenticationError;
        }
      } else if isHttpError || cfg.mode == Optional {
        if cfg.mode == Required && cfg.sanitize {
          response.Sanitize();
        }
      } else {
        return MutualAuthenticationError;
      }
      return Returned;
    }

    method AuthFlow(env: Environment, request: Request) returns (response: Response?, ending: Ending)
      requires env.made == 0 && env.calls == [] && env.log == []
      modifies env, request
      ensures var f := FlowSpec(cfg, env.gss, env.server, old(request.authorization));
        && Current(env, request, f.state.ctx) == f.state
        && ending == f.ending
        && (response == null <==> f.reply == None)
        && (response != null ==> fresh(response) && f.reply == Some(response.View()))
    {
      var ctx: Option<Context> := None;
      if cfg.opportunisticAuth {
        ctx := SetAuthHeader(env, request, None, None);
        if ctx == None {
          return null, SpnegoExchangeError;
        }
      }
      var first := env.Send(request, 0, ctx);
      response, ending, ctx := HandleResponse(env, request, first, ctx);
    }

    method HandleResponse(env: Environment, request: Request, first: Response, firstCtx: Option<Context>)
      returns (response: Response, ending: Ending, ctx: Option<Context>)
      requires |env.log| == 1 && LastReply(Current(env, request, firstCtx)) == first.View()
      modifies env, request, first
      ensures response == first || fresh(response)
      ensures Flow(Current(env, request, ctx), Some(response.View()), ending)
           == LoopSpec(cfg, env.gss, env.server, old(Current(env, request, firstCtx)))
    {
      ghost var goal := LoopSpec(cfg, env.gss, env.server, Current(env, request, firstCtx));
      var num401s: nat := 0;
      response, ctx := first, firstCtx;
      while response.status == HTTP_UNAUTHORIZED && num401s < MAX_401_RETRIES
        invariant response == first || fresh(response)
        invariant num401s <= MAX_401_RETRIES && |env.log| == num401s + 1
        invariant LastReply(Current(env, request, ctx)) == response.View()
        invariant LoopSpec(cfg, env.gss, env.server, Current(env, request, ctx)) == goal
      {
        var challenge := Challenged(response.View());
        if challenge.Malformed? {
          return response, DecodeError, ctx;
        }
        if challenge.NoChallenge? {
          break;
        }
        num401s := num401s + 1;
        var made := SetAuthHeader(env, request, NonEmpty(challenge.token), ctx);
        if made != None {
          ctx := made;
        }
        response := env.Send(request, num401s, ctx);
      }
      if response.status == HTTP_UNAUTHORIZED || ctx == None {
        return response, Returned, ctx;
      }
      ending := HandleMutualAuth(env, request, response, ctx.value);
    }
  }
}
