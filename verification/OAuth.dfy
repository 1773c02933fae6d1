/** The authorization server (src/oauth/server.rs, src/oauth/store.rs): asks, codes and
    bearer tokens, first as one request at a time, then with the store calls of many
    requests interleaved. */
module OAuth {
  import opened OrderKeys
  import opened Limits

  const CODE_TTL_SECS := 600
  const ASK_TTL_SECS := 900
  const TOUCH_EVERY_SECS := 60

  datatype Ask = Ask(id: string, client: string, redirect: string, challenge: string, askedAt: nat,
                     code: Option<string>, codeIssuedAt: Option<nat>, codeUsed: bool)

  datatype Token = Token(id: string, client: string, hash: string, issuedAt: nat, expiresAt: nat,
                         lastUsedAt: Option<nat>, revokedAt: Option<nat>)
  {
    predicate IsLive() { revokedAt.None? }
    predicate IsLiveAt(now: nat) { IsLive() && now < expiresAt }
  }

  /** The redirect URIs each client registered. */
  type Clients = map<string, seq<string>>

  type Asks = map<string, Ask>
  type Tokens = map<string, Token>

  datatype TokenRequest = TokenRequest(code: string, verifier: string, client: string, redirect: string)

  datatype AuthorizeRequest = AuthorizeRequest(client: Option<string>, redirect: Option<string>, responseType: Option<string>,
                                               challengeMethod: Option<string>, challenge: Option<string>, scopeIsKnown: bool)

  predicate Unreserved(c: char) {
    'a' <= c <= 'z' || 'A' <= c <= 'Z' || '0' <= c <= '9' || c in {'-', '.', '_', '~'}
  }

  /** Section 4.2 of RFC 7636. */
  predicate ChallengeIsWellFormed(s: string) {
    43 <= |s| <= 128 && forall i | 0 <= i < |s| :: Unreserved(s[i])
  }

  /** What an authorization request must bring before the person is asked anything. */
  predicate Returnable(clients: Clients, req: AuthorizeRequest) {
    && req.client.Some? && req.client.value != "" && req.client.value in clients
    && req.redirect.Some? && req.redirect.value != "" && req.redirect.value in clients[req.client.value]
  }

  predicate Acceptable(clients: Clients, req: AuthorizeRequest) {
    && Returnable(clients, req) && req.responseType == Some("code") && req.challengeMethod in {None, Some("S256")}
    && req.challenge.Some? && ChallengeIsWellFormed(req.challenge.value) && req.scopeIsKnown
  }

  /** An ask of a registered client, to a redirect it registered, with a usable challenge. */
  predicate Registered(clients: Clients, ask: Ask) {
    ask.client in clients && ask.redirect in clients[ask.client] && ChallengeIsWellFormed(ask.challenge)
  }

  /** Whether a verifier matches a challenge. */
  type Pkce = (string, string) -> bool

  predicate CodeIsFresh(ask: Ask, now: nat) {
    ask.codeIssuedAt.Some? && Elapsed(now, ask.codeIssuedAt.value) <= CODE_TTL_SECS
  }

  /** The checks between redeeming a code and issuing a token. */
  predicate Entitled(pkce: Pkce, req: TokenRequest, ask: Ask, now: nat) {
    CodeIsFresh(ask, now) && req.client == ask.client && req.redirect == ask.redirect && pkce(req.verifier, ask.challenge)
  }

  predicate Redeemable(ask: Ask, code: string) {
    !ask.codeUsed && ask.code == Some(code)
  }

  function MintedAsk(ask: Ask, code: string, now: nat): Ask {
    if ask.code.None? then ask.(code := Some(code), codeIssuedAt := Some(now)) else ask
  }

  function RevokedToken(t: Token, now: nat): Token {
    if t.revokedAt.None? then t.(revokedAt := Some(now)) else t
  }

  function TouchedToken(t: Token, usedAt: nat): Token {
    if t.IsLive() then t.(lastUsedAt := Some(usedAt)) else t
  }

  // -------------------------------------------------------------- memory store

  class MemoryStore {
    var asks: Asks
    var tokens: Tokens

    /** Records are filed under their own ids. */
    ghost predicate Valid()
      reads this
    {
      (forall i | i in asks :: asks[i].id == i) && (forall i | i in tokens :: tokens[i].id == i)
    }

    constructor ()
      ensures Valid() && asks == map[] && tokens == map[]
    {
      asks, tokens := map[], map[];
    }

    method PutAsk(ask: Ask)
      requires Valid()
      modifies this`asks
      ensures Valid()
      ensures asks == old(asks)[ask.id := ask]
    {
      asks := asks[ask.id := ask];
    }

    /** An ask gets at most one code, ever. */
    method MintCode(id: string, code: string, now: nat) returns (r: Option<Ask>)
      requires Valid()
      modifies this`asks
      ensures Valid()
      ensures id in old(asks) ==> asks == old(asks)[id := MintedAsk(old(asks)[id], code, now)] && r == Some(asks[id])
      ensures id !in old(asks) ==> asks == old(asks) && r == None
      ensures r.Some? ==> r.value.code.Some?
    {
      if id !in asks {
        return None;
      }
      var ask := asks[id];
      if ask.code.None? {
        ask := ask.(code := Some(code), codeIssuedAt := Some(now));
      }
      asks := asks[id := ask];
      r := Some(ask);
    }

    /** A code is redeemed once: the ask it belongs to is marked as it is handed out. */
    method RedeemCode(code: string) returns (r: Option<Ask>, ghost id: string)
      requires Valid()
      modifies this`asks
      ensures Valid()
      ensures r.None? ==> asks == old(asks) && forall i | i in asks :: !Redeemable(asks[i], code)
      ensures r.Some? ==> id in old(asks) && Redeemable(old(asks)[id], code)
      ensures r.Some? ==> r.value == old(asks)[id].(codeUsed := true) && asks == old(asks)[id := r.value]
    {
      var found := set i | i in asks && Redeemable(asks[i], code);
      if found == {} {
        assert forall i | i in asks && Redeemable(asks[i], code) :: i in found;
        r, id := None, "";
        return;
      }
      var i :| i in found;
      id := i;
      asks := asks[i := asks[i].(codeUsed := true)];
      r := Some(asks[i]);
    }

    /** `None` is the refusal to overwrite a held token. */
    method PutToken(token: Token) returns (ok: bool)
      requires Valid()
      modifies this`tokens
      ensures Valid()
      ensures ok <==> token.id !in old(tokens)
      ensures tokens == if ok then old(tokens)[token.id := token] else old(tokens)
    {
      if token.id in tokens {
        return false;
      }
      tokens := tokens[token.id := token];
      ok := true;
    }

    /** The first revocation stands. */
    method RevokeToken(id: string, now: nat) returns (known: bool)
      requires Valid()
      modifies this`tokens
      ensures Valid()
      ensures known <==> id in old(tokens)
      ensures tokens == if known then old(tokens)[id := RevokedToken(old(tokens)[id], now)] else old(tokens)
      ensures known ==> !tokens[id].IsLive()
    {
      if id !in tokens {
        return false;
      }
      if tokens[id].revokedAt.None? {
        tokens := tokens[id := tokens[id].(revokedAt := Some(now))];
      }
      known := true;
    }

    method TouchToken(id: string, usedAt: nat)
      requires Valid()
      modifies this`tokens
      ensures Valid()
      ensures tokens == if id in old(tokens) then old(tokens)[id := TouchedToken(old(tokens)[id], usedAt)] else old(tokens)
    {
      if id in tokens && tokens[id].IsLive() {
        tokens := tokens[id := tokens[id].(lastUsedAt := Some(usedAt))];
      }
    }

    method TokenByHash(hash: string) returns (r: Option<Token>, ghost id: string)
      ensures r.None? ==> forall i | i in tokens :: tokens[i].hash != hash
      ensures r.Some? ==> id in tokens && tokens[id] == r.value && r.value.hash == hash
    {
      var found := set i | i in tokens && tokens[i].hash == hash;
      if found == {} {
        assert forall i | i in tokens && tokens[i].hash == hash :: i in found;
        r, id := None, "";
        return;
      }
      var i :| i in found;
      r, id := Some(tokens[i]), i;
    }
  }

  /** An error goes back to the client only over a redirect it registered. */
  datatype Authorized = Asked(ask: Ask) | Page | BackToClient(error: string)

  /** `authorize`: an ask is filed exactly when the request passes every check, with the
      request's client, redirect and challenge, and no code. */
  method AuthorizeAsk(store: MemoryStore, clients: Clients, req: AuthorizeRequest, now: nat, id: string) returns (r: Authorized)
    requires store.Valid()
    modifies store`asks
    ensures store.Valid()
    ensures r.Asked? <==> Acceptable(clients, req)
    ensures r.Page? <==> !Returnable(clients, req)
    ensures r.Asked? ==>
              && store.asks == old(store.asks)[id := r.ask] && Registered(clients, r.ask)
              && r.ask == Ask(id, req.client.value, req.redirect.value, req.challenge.value, now, None, None, false)
    ensures !r.Asked? ==> store.asks == old(store.asks)
    ensures r.Page? <==> || req.client.None? || req.client.value == "" || req.client.value !in clients
                         || req.redirect.None? || req.redirect.value == "" || req.redirect.value !in clients[req.client.value]
    ensures !r.Page? ==> (r == BackToClient("unsupported_response_type") <==> req.responseType != Some("code"))
    ensures !r.Page? && req.responseType == Some("code") ==>
              (r == BackToClient("invalid_request") <==>
                 || (req.challengeMethod.Some? && req.challengeMethod.value != "S256")
                 || req.challenge.None? || |req.challenge.value| < 43 || |req.challenge.value| > 128
                 || exists i :: 0 <= i < |req.challenge.value| && !Unreserved(req.challenge.value[i]))
    ensures r == BackToClient("invalid_scope") ==> !req.scopeIsKnown
    ensures r.Asked? ==> req.scopeIsKnown
    ensures forall i, code | i in store.asks && Redeemable(store.asks[i], code) ::
              i in old(store.asks) && Redeemable(old(store.asks)[i], code)
  {
    if req.client.None? || req.client.value == "" || req.client.value !in clients {
      return Page;
    }
    var client := req.client.value;
    if req.redirect.None? || req.redirect.value == "" || req.redirect.value !in clients[client] {
      return Page;
    }
    var redirect := req.redirect.value;
    if req.responseType != Some("code") {
      return BackToClient("unsupported_response_type");
    }
    if req.challengeMethod.Some? && req.challengeMethod.value != "S256" {
      return BackToClient("invalid_request");
    }
    if req.challenge.None? || !ChallengeIsWellFormed(req.challenge.value) {
      return BackToClient("invalid_request");
    }
    if !req.scopeIsKnown {
      return BackToClient("invalid_scope");
    }
    var ask := Ask(id, client, redirect, req.challenge.value, now, None, None, false);
    store.PutAsk(ask);
    r := Asked(ask);
  }

  datatype Grant = Issued(token: Token) | InvalidGrant | InvalidClient | StoreError

  /** `token`, alone with the store: a token comes out exactly when the code's ask passes
      every check, and the code is spent either way. */
  method RedeemForToken(store: MemoryStore, pkce: Pkce, req: TokenRequest, now: nat, expiresAt: nat, id: string, hash: string)
    returns (g: Grant, ghost askId: string)
    requires store.Valid()
    modifies store
    ensures store.Valid()
    ensures g.Issued? ==>
              && askId in old(store.asks) && Redeemable(old(store.asks)[askId], req.code)
              && Entitled(pkce, req, old(store.asks)[askId], now)
              && g.token == Token(id, req.client, hash, now, expiresAt, None, None)
              && store.tokens == old(store.tokens)[id := g.token]
    ensures !g.Issued? ==> store.tokens == old(store.tokens)
    ensures (forall i | i in old(store.asks) :: !Redeemable(old(store.asks)[i], req.code)) ==> g == InvalidGrant && store.asks == old(store.asks)
    ensures forall i | i in old(store.asks) && Redeemable(old(store.asks)[i], req.code) && askId == i ::
              && store.asks == old(store.asks)[i := old(store.asks)[i].(codeUsed := true)]
              && (g.Issued? <==> Entitled(pkce, req, old(store.asks)[i], now) && id !in old(store.tokens))
              && (g.InvalidClient? <==> CodeIsFresh(old(store.asks)[i], now) && req.client != old(store.asks)[i].client)
              && (g.StoreError? <==> Entitled(pkce, req, old(store.asks)[i], now) && id in old(store.tokens))
    ensures forall i | i in old(store.asks) && !old(store.asks)[i].codeUsed && old(store.asks)[i].code == Some(req.code) && askId == i ::
              var ask := old(store.asks)[i];
              g.Issued? || g.StoreError? <==>
                && ask.codeIssuedAt.Some? && now <= ask.codeIssuedAt.value + 600
                && req.client == ask.client && req.redirect == ask.redirect && pkce(req.verifier, ask.challenge)
    ensures (exists i :: i in old(store.asks) && !old(store.asks)[i].codeUsed && old(store.asks)[i].code == Some(req.code)) ==>
              askId in old(store.asks) && !old(store.asks)[askId].codeUsed && old(store.asks)[askId].code == Some(req.code)
  {
    var redeemed;
    redeemed, askId := store.RedeemCode(req.code);
    if redeemed.None? {
      return InvalidGrant, askId;
    }
    var ask := redeemed.value;
    if !CodeIsFresh(ask, now) {
      return InvalidGrant, askId;
    }
    if req.client != ask.client {
      return InvalidClient, askId;
    }
    if req.redirect != ask.redirect {
      return InvalidGrant, askId;
    }
    if !pkce(req.verifier, ask.challenge) {
      return InvalidGrant, askId;
    }
    var token := Token(id, ask.client, hash, now, expiresAt, None, None);
    var ok := store.PutToken(token);
    g := if ok then Issued(token) else StoreError;
  }

  datatype PersonAnswer = Pending | Yes | No

  datatype Progress = Gone | Waiting | Denied | Redirect(code: string)

  /** An ask the person may still decide. */
  predicate Undecided(ask: Ask, now: nat) {
    !ask.codeUsed && ask.code.None? && Elapsed(now, ask.askedAt) <= ASK_TTL_SECS
  }

  /** `progress`, alone with the store: a code comes back only while it is unspent and
      fresh, and only an approved ask gets one. */
  method PollAsk(store: MemoryStore, id: string, answer: PersonAnswer, code: string, now: nat) returns (p: Progress)
    requires store.Valid()
    modifies store`asks
    ensures store.Valid()
    ensures p.Redirect? ==>
              && id in old(store.asks) && id in store.asks && store.asks[id].code == Some(p.code)
              && !store.asks[id].codeUsed && CodeIsFresh(store.asks[id], now)
              && (old(store.asks)[id].code.Some? || answer.Yes?)
    ensures if id in old(store.asks) && answer.Yes? && Undecided(old(store.asks)[id], now)
            then store.asks == old(store.asks)[id := MintedAsk(old(store.asks)[id], code, now)] && p == Redirect(code)
            else store.asks == old(store.asks)
    ensures p.Waiting? <==> id in old(store.asks) && Undecided(old(store.asks)[id], now) && answer.Pending?
    ensures p.Denied? <==> id in old(store.asks) && Undecided(old(store.asks)[id], now) && answer.No?
    ensures id in old(store.asks) && old(store.asks)[id].code.Some? ==>
              (p.Redirect? <==> !old(store.asks)[id].codeUsed && CodeIsFresh(old(store.asks)[id], now))
    ensures p.Redirect? ==>
              var ask := store.asks[id];
              !ask.codeUsed && ask.codeIssuedAt.Some? && now <= ask.codeIssuedAt.value + 600
    ensures id in old(store.asks) && old(store.asks)[id].code.None? && !old(store.asks)[id].codeUsed ==>
              if now > old(store.asks)[id].askedAt + 900 then p.Gone?
              else if answer.Pending? then p.Waiting? else if answer.No? then p.Denied? else p == Redirect(code)
  {
    if id !in store.asks {
      return Gone;
    }
    var ask := store.asks[id];
    if ask.codeUsed {
      return Gone;
    }
    if ask.code.Some? {
      return if CodeIsFresh(ask, now) then Redirect(ask.code.value) else Gone;
    }
    if Elapsed(now, ask.askedAt) > ASK_TTL_SECS {
      return Gone;
    }
    match answer
    case Pending => return Waiting;
    case No => return Denied;
    case Yes =>
      var minted := store.MintCode(ask.id, code, now);
      if minted.None? {
        return Gone;
      }
      var ask' := minted.value;
      return if ask'.code.Some? && CodeIsFresh(ask', now) then Redirect(ask'.code.value) else Gone;
  }

  /** `revoke`: a token with the bearer's hash is revoked, if there is one. */
  method RevokeBearer(store: MemoryStore, hash: string, now: nat) returns (ghost id: string)
    requires store.Valid()
    modifies store`tokens
    ensures store.Valid()
    ensures if exists i :: i in old(store.tokens) && old(store.tokens)[i].hash == hash
            then && id in old(store.tokens) && old(store.tokens)[id].hash == hash
                 && store.tokens == old(store.tokens)[id := RevokedToken(old(store.tokens)[id], now)]
                 && !store.tokens[id].IsLive()
            else store.tokens == old(store.tokens)
  {
    var token;
    token, id := store.TokenByHash(hash);
    if token.Some? {
      var known := store.RevokeToken(token.value.id, now);
    }
  }

  /** Uses are noted at most once a minute. */
  predicate Due(t: Token, now: nat) {
    t.lastUsedAt.None? || Elapsed(now, t.lastUsedAt.value) >= TOUCH_EVERY_SECS
  }

  /** `admit`: the token found under the bearer's hash, if it is live, with its use noted. */
  method AdmitBearer(store: MemoryStore, hash: string, now: nat) returns (r: Option<Token>, ghost id: string)
    requires store.Valid()
    modifies store`tokens
    ensures store.Valid()
    ensures (forall i | i in old(store.tokens) && old(store.tokens)[i].hash == hash :: !old(store.tokens)[i].IsLiveAt(now)) ==> r == None
    ensures r.None? ==> store.tokens == old(store.tokens)
    ensures r.Some? ==> r.value.revokedAt.None? && now < r.value.expiresAt && r.value.hash == hash
    ensures r.Some? ==>
              && id in old(store.tokens)
              && var before := old(store.tokens)[id].lastUsedAt;
                 r.value.lastUsedAt == if before.None? || now >= before.value + 60 then Some(now) else before
    ensures forall i | i in old(store.tokens) && old(store.tokens)[i].hash == hash
                       && old(store.tokens)[i].revokedAt.None? && now < old(store.tokens)[i].expiresAt ::
              (forall j | j in old(store.tokens) && old(store.tokens)[j].hash == hash :: j == i) ==> r.Some? && id == i
    ensures r.Some? ==>
              && id in old(store.tokens) && old(store.tokens)[id].hash == hash && old(store.tokens)[id].IsLiveAt(now)
              && store.tokens == (if Due(old(store.tokens)[id], now) then old(store.tokens)[id := TouchedToken(old(store.tokens)[id], now)] else old(store.tokens))
              && r.value == store.tokens[id]
  {
    var found;
    found, id := store.TokenByHash(hash);
    if found.None? || !found.value.IsLiveAt(now) {
      return None, id;
    }
    var token := found.value;
    if token.lastUsedAt.None? || Elapsed(now, token.lastUsedAt.value) >= TOUCH_EVERY_SECS {
      store.TouchToken(token.id, now);
      token := token.(lastUsedAt := Some(now));
    }
    r := Some(token);
  }

  // ------------------------------------------------------------- interleavings

  /** A request that passed every check with a redeemed code. */
  datatype Trace = Trace(ask: Ask, req: TokenRequest, now: nat)

  /** A request between two of its store calls. */
  datatype Thread =
    | Polling(ask: string, now: nat)      // progress: no code yet, asking the person
    | Approving(ask: string, now: nat)    // progress: the person said yes, about to mint
    | Redeemed(trace: Trace)              // token: about to issue
    | Revoking(token: string, now: nat)   // revoke: token found
    | Admitted(token: string, now: nat)   // admit: live when looked up, about to touch

  /** The store, the requests under way, who the person has approved, and for each token
      the request it was issued for. */
  datatype World = World(clients: Clients, asks: Asks, tokens: Tokens, threads: map<nat, Thread>, approved: set<string>, traces: map<string, Trace>)

  datatype Step =
    | Register(client: string, uris: seq<string>)
    | Authorize(newAsk: Ask)
    | Poll(n: nat, id: string, at: nat)
    | Answer(n: nat, yes: bool)
    | Mint(n: nat, code: string)
    | Redeem(n: nat, id: string, req: TokenRequest, at: nat)
    | Issue(n: nat, id: string, hash: string, expiresAt: nat)
    | FindToRevoke(n: nat, id: string, at: nat)
    | Revoke(n: nat)
    | Lookup(n: nat, id: string, at: nat)
    | Touch(n: nat)
    | Drop(n: nat)

  /** Random ids, codes and secrets are taken to be new. */
  ghost predicate Enabled(w: World, s: Step) {
    match s
    case Register(client, _) => client !in w.clients
    case Authorize(ask) => ask.id !in w.asks && Registered(w.clients, ask) && ask.code.None? && ask.codeIssuedAt.None? && !ask.codeUsed
    case Poll(n, id, at) =>
      n !in w.threads && id in w.asks && Undecided(w.asks[id], at)
    case Answer(n, _) => n in w.threads && w.threads[n].Polling?
    case Mint(n, code) => n in w.threads && w.threads[n].Approving? && forall i | i in w.asks :: w.asks[i].code != Some(code)
    case Redeem(n, id, req, _) => n !in w.threads && id in w.asks && Redeemable(w.asks[id], req.code)
    case Issue(n, _, hash, _) => n in w.threads && w.threads[n].Redeemed? && forall i | i in w.tokens :: w.tokens[i].hash != hash
    case FindToRevoke(n, id, _) => n !in w.threads && id in w.tokens
    case Revoke(n) => n in w.threads && w.threads[n].Revoking?
    case Lookup(n, id, at) => n !in w.threads && id in w.tokens && w.tokens[id].IsLiveAt(at)
    case Touch(n) => n in w.threads && w.threads[n].Admitted?
    case Drop(n) => n in w.threads
  }

  ghost function Next(w: World, pkce: Pkce, s: Step): World
    requires Enabled(w, s)
  {
    match s
    case Register(client, uris) => w.(clients := w.clients[client := uris])
    case Authorize(ask) => w.(asks := w.asks[ask.id := ask])
    case Poll(n, id, at) => w.(threads := w.threads[n := Polling(id, at)])
    case Answer(n, yes) =>
      var t := w.threads[n];
      if yes then w.(threads := w.threads[n := Approving(t.ask, t.now)], approved := w.approved + {t.ask})
      else w.(threads := w.threads - {n})
    case Mint(n, code) =>
      var t := w.threads[n];
      w.(asks := if t.ask in w.asks then w.asks[t.ask := MintedAsk(w.asks[t.ask], code, t.now)] else w.asks, threads := w.threads - {n})
    case Redeem(n, id, req, at) =>
      var ask := w.asks[id].(codeUsed := true);
      var asks := w.asks[id := ask];
      if Entitled(pkce, req, ask, at) then w.(asks := asks, threads := w.threads[n := Redeemed(Trace(ask, req, at))]) else w.(asks := asks)
    case Issue(n, id, hash, expiresAt) =>
      var t := w.threads[n].trace;
      if id in w.tokens then w.(threads := w.threads - {n})
      else w.(tokens := w.tokens[id := Token(id, t.ask.client, hash, t.now, expiresAt, None, None)],
              traces := w.traces[id := t], threads := w.threads - {n})
    case FindToRevoke(n, id, at) => w.(threads := w.threads[n := Revoking(id, at)])
    case Revoke(n) =>
      var t := w.threads[n];
      w.(tokens := if t.token in w.tokens then w.tokens[t.token := RevokedToken(w.tokens[t.token], t.now)] else w.tokens,
         threads := w.threads - {n})
    case Lookup(n, id, at) => w.(threads := w.threads[n := Admitted(id, at)])
    case Touch(n) =>
      var t := w.threads[n];
      w.(tokens := if t.token in w.tokens then w.tokens[t.token := TouchedToken(w.tokens[t.token], t.now)] else w.tokens,
         threads := w.threads - {n})
    case Drop(n) => w.(threads := w.threads - {n})
  }

  // ---------------------------------------------------------------- invariants

  /** Codes are minted for approved asks only, and no two asks share one. */
  ghost predicate AsksInv(asks: Asks, approved: set<string>) {
    && (forall i | i in asks ::
          && asks[i].id == i
          && (asks[i].code.Some? ==> i in approved)
          && (asks[i].codeUsed ==> asks[i].code.Some?))
    && (forall i, j | i in asks && j in asks && asks[i].code.Some? && asks[i].code == asks[j].code :: i == j)
  }

  /** A spent ask, as some request holds it, is what the store holds. */
  ghost predicate Spent(asks: Asks, ask: Ask) {
    ask.id in asks && asks[ask.id] == ask && ask.codeUsed && ask.code.Some?
  }

  /** A request on its way to a token, or a token's trace. */
  ghost predicate Sound(pkce: Pkce, asks: Asks, t: Trace) {
    Spent(asks, t.ask) && t.ask.code == Some(t.req.code) && Entitled(pkce, t.req, t.ask, t.now)
  }

  ghost predicate ThreadsInv(w: World, pkce: Pkce) {
    && (forall n | n in w.threads && w.threads[n].Approving? :: w.threads[n].ask in w.approved)
    && (forall n | n in w.threads && w.threads[n].Redeemed? ::
          Sound(pkce, w.asks, w.threads[n].trace))
    && (forall m, n | m in w.threads && n in w.threads && w.threads[m].Redeemed? && w.threads[n].Redeemed? && m != n ::
          w.threads[m].trace.ask.id != w.threads[n].trace.ask.id)
    && (forall n, i | n in w.threads && w.threads[n].Redeemed? && i in w.traces :: w.threads[n].trace.ask.id != w.traces[i].ask.id)
  }

  ghost predicate TracesInv(w: World, pkce: Pkce) {
    && w.traces.Keys == w.tokens.Keys
    && (forall i | i in w.traces :: Sound(pkce, w.asks, w.traces[i]) && w.tokens[i].client == w.traces[i].req.client && w.tokens[i].issuedAt == w.traces[i].now)
    && (forall i, j | i in w.traces && j in w.traces && i != j :: w.traces[i].ask.id != w.traces[j].ask.id)
  }

  ghost predicate TokensInv(tokens: Tokens) {
    && (forall i | i in tokens :: tokens[i].id == i)
    && (forall i, j | i in tokens && j in tokens && tokens[i].hash == tokens[j].hash :: i == j)
  }

  ghost predicate Inv(w: World, pkce: Pkce) {
    AsksInv(w.asks, w.approved) && ThreadsInv(w, pkce) && TracesInv(w, pkce) && TokensInv(w.tokens)
  }

  /** Nothing that happens to an ask once it is spent. */
  ghost predicate SpentStays(asks: Asks, asks': Asks) {
    forall i | i in asks && asks[i].codeUsed && asks[i].code.Some? :: i in asks' && asks'[i] == asks[i]
  }

  lemma SoundStays(pkce: Pkce, asks: Asks, asks': Asks, t: Trace)
    requires Sound(pkce, asks, t) && SpentStays(asks, asks')
    ensures Sound(pkce, asks', t)
  {
  }

  /** Steps that change asks and leave spent ones alone keep every trace sound. */
  lemma AskStepKeeps(w: World, w': World, pkce: Pkce)
    requires Inv(w, pkce) && SpentStays(w.asks, w'.asks) && w'.tokens == w.tokens && w'.traces == w.traces
    requires forall n | n in w'.threads && w'.threads[n].Redeemed? :: n in w.threads && w'.threads[n] == w.threads[n]
    requires forall n | n in w'.threads && w'.threads[n].Approving? :: w'.threads[n].ask in w'.approved
    ensures ThreadsInv(w', pkce) && TracesInv(w', pkce)
  {
    hide Entitled;
    forall t | Sound(pkce, w.asks, t)
      ensures Sound(pkce, w'.asks, t)
    {
      SoundStays(pkce, w.asks, w'.asks, t);
    }
    hide Sound;
  }

  lemma AuthorizeKeepsInv(w: World, pkce: Pkce, s: Step)
    requires Inv(w, pkce) && s.Authorize? && Enabled(w, s)
    ensures Inv(Next(w, pkce, s), pkce)
  {
    hide Sound;
    AskStepKeeps(w, Next(w, pkce, s), pkce);
    hide ThreadsInv;
    hide TracesInv;
  }

  lemma MintKeepsInv(w: World, pkce: Pkce, s: Step)
    requires Inv(w, pkce) && s.Mint? && Enabled(w, s)
    ensures Inv(Next(w, pkce, s), pkce)
  {
    hide Sound;
    AskStepKeeps(w, Next(w, pkce, s), pkce);
    var t := w.threads[s.n];
    assert t.ask in w.approved;
    hide ThreadsInv;
    hide TracesInv;
    if t.ask in w.asks {
      MintKeepsAsks(w.asks, w.approved, t.ask, s.code, t.now);
    }
    hide AsksInv;
  }

  lemma MintKeepsAsks(asks: Asks, approved: set<string>, id: string, code: string, now: nat)
    requires AsksInv(asks, approved) && id in asks && id in approved && forall i | i in asks :: asks[i].code != Some(code)
    ensures AsksInv(asks[id := MintedAsk(asks[id], code, now)], approved)
  {
  }

  /** A redeemed code's ask was not spent before, so nothing else traces to it. */
  lemma RedeemedWasUnspent(asks: Asks, id: string, pkce: Pkce, code: string, t: Trace)
    requires id in asks && Redeemable(asks[id], code) && Sound(pkce, asks, t)
    ensures t.ask.id != id && Sound(pkce, asks[id := asks[id].(codeUsed := true)], t)
  {
  }

  lemma RedeemKeepsThreads(w: World, pkce: Pkce, s: Step)
    requires ThreadsInv(w, pkce) && (forall i | i in w.traces :: Sound(pkce, w.asks, w.traces[i]))
    requires s.Redeem? && Enabled(w, s) && w.asks[s.id].id == s.id
    ensures ThreadsInv(Next(w, pkce, s), pkce)
  {
    var ask := w.asks[s.id].(codeUsed := true);
    var w1, t := w.(asks := w.asks[s.id := ask]), Trace(ask, s.req, s.at);
    forall t | Sound(pkce, w.asks, t)
      ensures t.ask.id != s.id && Sound(pkce, w1.asks, t)
    {
      RedeemedWasUnspent(w.asks, s.id, pkce, s.req.code, t);
    }
    assert Entitled(pkce, s.req, ask, s.at) ==> Sound(pkce, w1.asks, t);
    hide Sound;
    hide Entitled;
    hide Redeemable;
    assert ThreadsInv(w1, pkce) && forall i | i in w.traces :: w.traces[i].ask.id != s.id;
    assert forall m | m in w.threads && w.threads[m].Redeemed? :: w.threads[m].trace.ask.id != s.id;
    if Entitled(pkce, s.req, ask, s.at) {
      ThreadsWithRedeemed(w1, pkce, s.n, t);
    }
    hide ThreadsInv;
  }

  /** A request joins those on their way to a token, for an ask none of them traces to. */
  lemma ThreadsWithRedeemed(w: World, pkce: Pkce, n: nat, t: Trace)
    requires ThreadsInv(w, pkce) && n !in w.threads && Sound(pkce, w.asks, t)
    requires forall m | m in w.threads && w.threads[m].Redeemed? :: w.threads[m].trace.ask.id != t.ask.id
    requires forall i | i in w.traces :: w.traces[i].ask.id != t.ask.id
    ensures ThreadsInv(w.(threads := w.threads[n := Redeemed(t)]), pkce)
  {
    hide Sound;
  }

  lemma RedeemKeepsTraces(w: World, pkce: Pkce, s: Step)
    requires TracesInv(w, pkce) && s.Redeem? && Enabled(w, s)
    ensures TracesInv(Next(w, pkce, s), pkce)
  {
    var w' := Next(w, pkce, s);
    forall i | i in w.traces
      ensures Sound(pkce, w'.asks, w.traces[i])
    {
      RedeemedWasUnspent(w.asks, s.id, pkce, s.req.code, w.traces[i]);
    }
    hide Sound;
    hide Entitled;
    hide Redeemable;
  }

  lemma RedeemKeepsAsks(asks: Asks, approved: set<string>, id: string, code: string)
    requires AsksInv(asks, approved) && id in asks && Redeemable(asks[id], code)
    ensures AsksInv(asks[id := asks[id].(codeUsed := true)], approved)
  {
  }

  lemma RedeemKeepsInv(w: World, pkce: Pkce, s: Step)
    requires Inv(w, pkce) && s.Redeem? && Enabled(w, s)
    ensures Inv(Next(w, pkce, s), pkce)
  {
    RedeemKeepsAsks(w.asks, w.approved, s.id, s.req.code);
    RedeemKeepsTraces(w, pkce, s);
    RedeemKeepsThreads(w, pkce, s);
    hide ThreadsInv;
    hide TracesInv;
    hide AsksInv;
    hide TokensInv;
    hide Entitled;
  }

  lemma IssueKeepsTraces(w: World, pkce: Pkce, s: Step)
    requires ThreadsInv(w, pkce) && TracesInv(w, pkce) && s.Issue? && Enabled(w, s)
    ensures TracesInv(Next(w, pkce, s), pkce)
  {
    var t := w.threads[s.n].trace;
    assert Sound(pkce, w.asks, t) && t.req.client == t.ask.client;
    hide Sound;
  }

  lemma IssueKeepsThreads(w: World, pkce: Pkce, s: Step)
    requires ThreadsInv(w, pkce) && s.Issue? && Enabled(w, s)
    ensures ThreadsInv(Next(w, pkce, s), pkce)
  {
  }

  lemma IssueKeepsTokens(tokens: Tokens, id: string, token: Token)
    requires TokensInv(tokens) && id !in tokens && token.id == id && forall i | i in tokens :: tokens[i].hash != token.hash
    ensures TokensInv(tokens[id := token])
  {
  }

  lemma IssueKeepsInv(w: World, pkce: Pkce, s: Step)
    requires Inv(w, pkce) && s.Issue? && Enabled(w, s)
    ensures Inv(Next(w, pkce, s), pkce)
  {
    IssueKeepsTraces(w, pkce, s);
    IssueKeepsThreads(w, pkce, s);
    if s.id !in w.tokens {
      var t := w.threads[s.n].trace;
      IssueKeepsTokens(w.tokens, s.id, Token(s.id, t.ask.client, s.hash, t.now, s.expiresAt, None, None));
    }
    hide ThreadsInv;
    hide TracesInv;
    hide AsksInv;
    hide TokensInv;
  }

  /** The same tokens but for when they were last used or revoked. */
  ghost predicate SameTokens(tokens: Tokens, tokens': Tokens) {
    && tokens'.Keys == tokens.Keys
    && forall i | i in tokens :: tokens'[i] == tokens[i].(lastUsedAt := tokens'[i].lastUsedAt, revokedAt := tokens'[i].revokedAt)
  }

  lemma FrameKeepsInv(w: World, w': World, pkce: Pkce)
    requires Inv(w, pkce) && Frame(w, w')
    ensures Inv(w', pkce)
  {
    hide Sound;
    assert AsksInv(w'.asks, w'.approved);
    hide AsksInv;
    assert ThreadsInv(w', pkce);
    hide ThreadsInv;
  }

  ghost predicate ApprovingIsApproved(w: World) {
    forall n | n in w.threads && w.threads[n].Approving? :: w.threads[n].ask in w.approved
  }

  /** Nothing but threads, approvals and the mutable parts of tokens changed. */
  ghost predicate Frame(w: World, w': World) {
    && w'.asks == w.asks && w'.traces == w.traces && w.approved <= w'.approved && SameTokens(w.tokens, w'.tokens)
    && (forall n | n in w'.threads && w'.threads[n].Redeemed? :: n in w.threads && w'.threads[n] == w.threads[n])
    && ApprovingIsApproved(w')
  }

  lemma RevokeFrame(w: World, pkce: Pkce, s: Step)
    requires ApprovingIsApproved(w) && Enabled(w, s) && s.Revoke?
    ensures Frame(w, Next(w, pkce, s))
  {
    assert SameTokens(w.tokens, Next(w, pkce, s).tokens);
    hide SameTokens;
    hide RevokedToken;
  }

  lemma TouchFrame(w: World, pkce: Pkce, s: Step)
    requires ApprovingIsApproved(w) && Enabled(w, s) && s.Touch?
    ensures Frame(w, Next(w, pkce, s))
  {
    assert SameTokens(w.tokens, Next(w, pkce, s).tokens);
    hide SameTokens;
    hide TouchedToken;
  }

  lemma ThreadStepFrame(w: World, pkce: Pkce, s: Step)
    requires ApprovingIsApproved(w) && Enabled(w, s)
    requires s.Register? || s.Poll? || s.FindToRevoke? || s.Lookup? || s.Drop?
    ensures Frame(w, Next(w, pkce, s))
  {
    hide Undecided;
    assert SameTokens(w.tokens, w.tokens);
    hide SameTokens;
  }

  lemma AnswerFrame(w: World, pkce: Pkce, s: Step)
    requires ApprovingIsApproved(w) && Enabled(w, s) && s.Answer?
    ensures Frame(w, Next(w, pkce, s))
  {
    assert SameTokens(w.tokens, w.tokens);
    hide SameTokens;
  }

  lemma OtherStepKeepsInv(w: World, pkce: Pkce, s: Step)
    requires Inv(w, pkce) && Enabled(w, s) && !s.Authorize? && !s.Mint? && !s.Redeem? && !s.Issue?
    ensures Inv(Next(w, pkce, s), pkce)
  {
    assert ApprovingIsApproved(w) by { hide Sound; }
    hide Inv;
    if s.Revoke? {
      RevokeFrame(w, pkce, s);
    } else if s.Touch? {
      TouchFrame(w, pkce, s);
    } else if s.Answer? {
      AnswerFrame(w, pkce, s);
    } else {
      ThreadStepFrame(w, pkce, s);
    }
    hide Next;
    hide Enabled;
    hide SameTokens;
    FrameKeepsInv(w, Next(w, pkce, s), pkce);
  }

  lemma StepKeepsInv(w: World, pkce: Pkce, s: Step)
    requires Inv(w, pkce) && Enabled(w, s)
    ensures Inv(Next(w, pkce, s), pkce)
  {
    hide Inv;
    hide Next;
    match s
    case Authorize(_) => AuthorizeKeepsInv(w, pkce, s);
    case Mint(_, _) => MintKeepsInv(w, pkce, s);
    case Redeem(_, _, _, _) => RedeemKeepsInv(w, pkce, s);
    case Issue(_, _, _, _) => IssueKeepsInv(w, pkce, s);
    case _ => OtherStepKeepsInv(w, pkce, s);
  }

  // ----------------------------------------------------------------- all runs

  ghost predicate Start(w: World) {
    w == World(map[], map[], map[], map[], {}, map[])
  }

  ghost predicate Follows(w: World, w': World, pkce: Pkce) {
    exists s :: Enabled(w, s) && w' == Next(w, pkce, s)
  }

  ghost predicate IsRun(run: seq<World>, pkce: Pkce) {
    && run != [] && Start(run[0])
    && forall i | 0 <= i < |run| - 1 :: Follows(run[i], run[i + 1], pkce)
  }

  lemma {:induction false} EveryRunKeepsInv(run: seq<World>, pkce: Pkce, i: nat)
    requires IsRun(run, pkce) && i < |run|
    ensures Inv(run[i], pkce)
  {
    if i > 0 {
      EveryRunKeepsInv(run, pkce, i - 1);
      hide Inv;
      assert Follows(run[i - 1], run[i - 1 + 1], pkce);
      var s :| Enabled(run[i - 1], s) && run[i] == Next(run[i - 1], pkce, s);
      StepKeepsInv(run[i - 1], pkce, s);
    }
  }

  /** Every ask is of a registered client, to a redirect it registered. */
  ghost predicate AsksAreRegistered(w: World) {
    forall i | i in w.asks :: Registered(w.clients, w.asks[i])
  }

  lemma StepKeepsRegistered(w: World, pkce: Pkce, s: Step)
    requires AsksAreRegistered(w) && Enabled(w, s)
    ensures AsksAreRegistered(Next(w, pkce, s))
  {
    hide ChallengeIsWellFormed;
    hide Entitled;
    hide Undecided;
  }

  lemma {:induction false} EveryAskIsRegistered(run: seq<World>, pkce: Pkce, i: nat)
    requires IsRun(run, pkce) && i < |run|
    ensures AsksAreRegistered(run[i])
  {
    if i > 0 {
      EveryAskIsRegistered(run, pkce, i - 1);
      hide AsksAreRegistered;
      assert Follows(run[i - 1], run[i - 1 + 1], pkce);
      var s :| Enabled(run[i - 1], s) && run[i] == Next(run[i - 1], pkce, s);
      StepKeepsRegistered(run[i - 1], pkce, s);
    }
  }

  /** Every token was issued for one approved ask, to the client and redirect that ask was
      made with, a redirect that client registered, against a matching verifier and a code
      at most ten minutes old. */
  lemma EveryTokenIsTraced(run: seq<World>, pkce: Pkce, i: nat, id: string)
    requires IsRun(run, pkce) && i < |run| && id in run[i].tokens
    ensures var w := run[i];
            && id in w.traces
            && var t := w.traces[id];
               && t.ask.id in w.approved && t.ask.id in w.asks && w.asks[t.ask.id] == t.ask && t.ask.codeUsed
               && t.ask.code == Some(t.req.code)
               && t.ask.codeIssuedAt.Some? && t.now <= t.ask.codeIssuedAt.value + CODE_TTL_SECS
               && t.req.client == t.ask.client && t.req.redirect == t.ask.redirect && pkce(t.req.verifier, t.ask.challenge)
               && w.tokens[id].client == t.ask.client && w.tokens[id].issuedAt == t.now
               && Registered(w.clients, t.ask)
  {
    EveryRunKeepsInv(run, pkce, i);
    EveryAskIsRegistered(run, pkce, i);
    assert Sound(pkce, run[i].asks, run[i].traces[id]);
  }

  /** One ask, and one code, yields at most one token. */
  lemma OneTokenPerAsk(run: seq<World>, pkce: Pkce, i: nat, a: string, b: string)
    requires IsRun(run, pkce) && i < |run| && a in run[i].tokens && b in run[i].tokens && a != b
    ensures a in run[i].traces && b in run[i].traces
    ensures run[i].traces[a].ask.id != run[i].traces[b].ask.id && run[i].traces[a].req.code != run[i].traces[b].req.code
  {
    EveryRunKeepsInv(run, pkce, i);
    assert Sound(pkce, run[i].asks, run[i].traces[a]) && Sound(pkce, run[i].asks, run[i].traces[b]);
  }

  lemma RevocationStays(w: World, w': World, pkce: Pkce, id: string)
    requires Follows(w, w', pkce) && id in w.tokens && !w.tokens[id].IsLive()
    ensures id in w'.tokens && w'.tokens[id] == w.tokens[id]
  {
    hide Registered;
    hide Undecided;
    hide Entitled;
    hide Redeemable;
    var s :| Enabled(w, s) && w' == Next(w, pkce, s);
    if s.Issue? || s.Revoke? || s.Touch? {
      RevokedTokenStays(w, pkce, s, id);
    } else {
      OtherTokensStay(w, pkce, s);
    }
    hide Next;
  }

  lemma RevokedTokenStays(w: World, pkce: Pkce, s: Step, id: string)
    requires Enabled(w, s) && (s.Issue? || s.Revoke? || s.Touch?) && id in w.tokens && !w.tokens[id].IsLive()
    ensures id in Next(w, pkce, s).tokens && Next(w, pkce, s).tokens[id] == w.tokens[id]
  {
  }

  lemma OtherTokensStay(w: World, pkce: Pkce, s: Step)
    requires Enabled(w, s) && !s.Issue? && !s.Revoke? && !s.Touch?
    ensures Next(w, pkce, s).tokens == w.tokens
  {
    hide Registered;
    hide Undecided;
    hide Entitled;
    hide Redeemable;
  }

  lemma {:induction false} RevokedStays(run: seq<World>, pkce: Pkce, i: nat, j: nat, id: string)
    requires IsRun(run, pkce) && i <= j < |run| && id in run[i].tokens && !run[i].tokens[id].IsLive()
    ensures id in run[j].tokens && run[j].tokens[id] == run[i].tokens[id]
    decreases j - i
  {
    hide Follows;
    if i < j {
      RevokedStays(run, pkce, i, j - 1, id);
      assert Follows(run[j - 1], run[j - 1 + 1], pkce);
      RevocationStays(run[j - 1], run[j], pkce, id);
    }
  }

  /** From the moment a token is revoked, no lookup under its hash finds a live one. */
  lemma RevokedIsNeverAdmitted(run: seq<World>, pkce: Pkce, i: nat, j: nat, id: string, now: nat)
    requires IsRun(run, pkce) && i <= j < |run| && id in run[i].tokens && !run[i].tokens[id].IsLive()
    ensures forall k | k in run[j].tokens && run[j].tokens[k].hash == run[i].tokens[id].hash :: !run[j].tokens[k].IsLiveAt(now)
  {
    hide Follows;
    EveryRunKeepsInv(run, pkce, j);
    assert TokensInv(run[j].tokens);
    hide Inv;
    hide TokensInv;
    RevokedStays(run, pkce, i, j, id);
    hide IsRun;
    OneLivePerHash(run[j].tokens, id, now);
  }

  /** A request is where it was, unless the step is its own. */
  lemma OtherThreadsStay(w: World, pkce: Pkce, s: Step, n: nat)
    requires Enabled(w, s) && n in Next(w, pkce, s).threads
    ensures || (n in w.threads && Next(w, pkce, s).threads[n] == w.threads[n])
            || ((s.Poll? || s.Answer? || s.Redeem? || s.FindToRevoke? || s.Lookup?) && s.n == n)
  {
    hide Registered;
    hide Undecided;
    hide Entitled;
    hide Redeemable;
    hide MintedAsk;
    hide RevokedToken;
    hide TouchedToken;
  }

  /** Only a lookup puts a request on its way to admit a token. */
  lemma OnlyLookupAdmits(w: World, pkce: Pkce, s: Step, n: nat)
    requires Enabled(w, s) && !s.Lookup? && n in Next(w, pkce, s).threads && Next(w, pkce, s).threads[n].Admitted?
    ensures n in w.threads && w.threads[n] == Next(w, pkce, s).threads[n]
  {
    OtherThreadsStay(w, pkce, s, n);
    if !s.Poll? && !s.Answer? && !s.Redeem? && !s.FindToRevoke? {
      hide Next;
    }
    hide Entitled;
    hide Undecided;
  }

  /** A step finds only live tokens to admit, and leaves those on their way as they are. */
  lemma LookupIsLive(w: World, pkce: Pkce, s: Step, n: nat)
    requires Enabled(w, s) && n in Next(w, pkce, s).threads && Next(w, pkce, s).threads[n].Admitted?
    ensures var t := Next(w, pkce, s).threads[n];
            (n in w.threads && w.threads[n] == t) || (t.token in w.tokens && w.tokens[t.token].IsLive())
  {
    if !s.Lookup? {
      OnlyLookupAdmits(w, pkce, s, n);
      hide Next;
    }
  }

  /** A request that admits a token at some point after its revocation looked the token up
      before: it was on its way at the revocation, and ever since. */
  lemma {:induction false} AdmittedWasLookedUp(run: seq<World>, pkce: Pkce, i: nat, j: nat, n: nat)
    requires IsRun(run, pkce) && i <= j < |run| && n in run[j].threads && run[j].threads[n].Admitted?
    requires var id := run[j].threads[n].token; id in run[i].tokens && !run[i].tokens[id].IsLive()
    ensures forall m | i <= m <= j :: n in run[m].threads && run[m].threads[n] == run[j].threads[n]
    decreases j - i
  {
    hide Follows;
    if i < j {
      var id := run[j].threads[n].token;
      RevokedStays(run, pkce, i, j - 1, id);
      assert Follows(run[j - 1], run[j - 1 + 1], pkce);
      LookedUpBefore(run[j - 1], run[j], pkce, n);
      AdmittedWasLookedUp(run, pkce, i, j - 1, n);
    }
  }

  lemma LookedUpBefore(w: World, w': World, pkce: Pkce, n: nat)
    requires Follows(w, w', pkce) && n in w'.threads && w'.threads[n].Admitted?
    requires w'.threads[n].token in w.tokens && !w.tokens[w'.threads[n].token].IsLive()
    ensures n in w.threads && w.threads[n] == w'.threads[n]
  {
    hide Next;
    hide Enabled;
    var s :| Enabled(w, s) && w' == Next(w, pkce, s);
    LookupIsLive(w, pkce, s, n);
  }

  lemma OneMoreStep(run: seq<World>, pkce: Pkce, s: Step)
    requires IsRun(run, pkce) && Enabled(run[|run| - 1], s)
    ensures IsRun(run + [Next(run[|run| - 1], pkce, s)], pkce)
  {
    hide Next;
    hide Enabled;
    var more := run + [Next(run[|run| - 1], pkce, s)];
    forall i | 0 <= i < |more| - 1
      ensures Follows(more[i], more[i + 1], pkce)
    {
      assert i < |run| - 1 ==> Follows(run[i], run[i + 1], pkce);
    }
  }

  /** One client, one ask, approved, its code redeemed: a token nobody has revoked. */
  function FreshAsk(challenge: string): Ask {
    Ask("a", "c", "r", challenge, 0, None, None, false)
  }

  ghost function Tokened(challenge: string, verifier: string): World {
    var ask := FreshAsk(challenge).(code := Some("k"), codeIssuedAt := Some(0), codeUsed := true);
    World(map["c" := ["r"]], map["a" := ask], map["t" := Token("t", "c", "h", 0, 1, None, None)], map[], {"a"},
          map["t" := Trace(ask, TokenRequest("k", verifier, "c", "r"), 0)])
  }

  lemma AskIsFiled(pkce: Pkce, challenge: string) returns (run: seq<World>)
    requires ChallengeIsWellFormed(challenge)
    ensures IsRun(run, pkce)
    ensures run[|run| - 1] == World(map["c" := ["r"]], map["a" := FreshAsk(challenge)], map[], map[0 := Approving("a", 0)], {"a"}, map[])
  {
    hide ChallengeIsWellFormed;
    var w := World(map[], map[], map[], map[], {}, map[]);
    run := [w];
    assert IsRun(run, pkce);
    OneMoreStep(run, pkce, Register("c", ["r"]));
    w := w.(clients := map["c" := ["r"]]);
    run := run + [w];
    OneMoreStep(run, pkce, Authorize(FreshAsk(challenge)));
    w := w.(asks := map["a" := FreshAsk(challenge)]);
    run := run + [w];
    OneMoreStep(run, pkce, Poll(0, "a", 0));
    w := w.(threads := map[0 := Polling("a", 0)]);
    run := run + [w];
    OneMoreStep(run, pkce, Answer(0, true));
    w := w.(threads := map[0 := Approving("a", 0)], approved := {"a"});
    run := run + [w];
  }

  lemma TokenIsReached(pkce: Pkce, challenge: string, verifier: string) returns (run: seq<World>)
    requires ChallengeIsWellFormed(challenge) && pkce(verifier, challenge)
    ensures IsRun(run, pkce) && run[|run| - 1] == Tokened(challenge, verifier)
  {
    run := AskIsFiled(pkce, challenge);
    hide IsRun;
    var w := run[|run| - 1];
    OneMoreStep(run, pkce, Mint(0, "k"));
    var ask := FreshAsk(challenge).(code := Some("k"), codeIssuedAt := Some(0));
    w := w.(asks := map["a" := ask], threads := map[]);
    run := run + [w];
    var req := TokenRequest("k", verifier, "c", "r");
    OneMoreStep(run, pkce, Redeem(0, "a", req, 0));
    ask := ask.(codeUsed := true);
    w := w.(asks := map["a" := ask], threads := map[0 := Redeemed(Trace(ask, req, 0))]);
    run := run + [w];
    OneMoreStep(run, pkce, Issue(0, "t", "h", 1));
    run := run + [Tokened(challenge, verifier)];
  }

  /** There are such requests: from any state with a live token, one that looks it up, then a
      revocation, and the first is still about to admit it. */
  lemma LateAdmission(run: seq<World>, pkce: Pkce, id: string, n: nat, m: nat, now: nat) returns (more: seq<World>)
    requires IsRun(run, pkce) && id in run[|run| - 1].tokens && run[|run| - 1].tokens[id].IsLiveAt(now)
    requires n != m && n !in run[|run| - 1].threads && m !in run[|run| - 1].threads
    ensures IsRun(more, pkce) && run <= more
    ensures var w := more[|more| - 1];
            n in w.threads && w.threads[n] == Admitted(id, now) && id in w.tokens && !w.tokens[id].IsLive()
  {
    var w := run[|run| - 1];
    hide IsRun;
    hide Registered;
    more := run;
    OneMoreStep(more, pkce, Lookup(n, id, now));
    var w1 := Next(w, pkce, Lookup(n, id, now));
    more := more + [w1];
    OneMoreStep(more, pkce, FindToRevoke(m, id, now));
    var w2 := Next(w1, pkce, FindToRevoke(m, id, now));
    more := more + [w2];
    OneMoreStep(more, pkce, Revoke(m));
    var w3 := Next(w2, pkce, Revoke(m));
    more := more + [w3];
  }

  /** The same token but for its last use, and for its revocation unless it was revoked. */
  predicate SameIssue(t: Token, t': Token) {
    && t' == Token(t.id, t.client, t.hash, t.issuedAt, t.expiresAt, t'.lastUsedAt, t'.revokedAt)
    && (t.revokedAt.Some? ==> t'.revokedAt == t.revokedAt)
  }

  lemma TokenStays(w: World, pkce: Pkce, s: Step, id: string)
    requires Enabled(w, s) && id in w.tokens
    ensures id in Next(w, pkce, s).tokens && SameIssue(w.tokens[id], Next(w, pkce, s).tokens[id])
  {
    if !s.Issue? && !s.Revoke? && !s.Touch? {
      OtherTokensStay(w, pkce, s);
      hide Next;
    }
  }

  lemma TokenFollows(w: World, w': World, pkce: Pkce, id: string)
    requires Follows(w, w', pkce) && id in w.tokens
    ensures id in w'.tokens && SameIssue(w.tokens[id], w'.tokens[id])
  {
    hide Next;
    hide Enabled;
    hide SameIssue;
    var s :| Enabled(w, s) && w' == Next(w, pkce, s);
    TokenStays(w, pkce, s, id);
  }

  /** Whatever happens, a token stays as it was issued, and its first revocation stands. */
  lemma {:induction false} TokenStaysAsIssued(run: seq<World>, pkce: Pkce, i: nat, j: nat, id: string)
    requires IsRun(run, pkce) && i <= j < |run| && id in run[i].tokens
    ensures id in run[j].tokens && SameIssue(run[i].tokens[id], run[j].tokens[id])
    decreases j
  {
    hide Start;
    hide Follows;
    if i < j {
      TokenStaysAsIssued(run, pkce, i, j - 1, id);
      assert Follows(run[j - 1], run[j - 1 + 1], pkce);
      TokenFollows(run[j - 1], run[j], pkce, id);
    }
  }

  ghost predicate AdmittedInTime(w: World) {
    forall n | n in w.threads && w.threads[n].Admitted? ::
      w.threads[n].token in w.tokens && w.threads[n].now < w.tokens[w.threads[n].token].expiresAt
  }

  lemma StepKeepsInTime(w: World, pkce: Pkce, s: Step)
    requires AdmittedInTime(w) && Enabled(w, s)
    ensures AdmittedInTime(Next(w, pkce, s))
  {
    var w' := Next(w, pkce, s);
    forall n | n in w'.threads && w'.threads[n].Admitted?
      ensures w'.threads[n].token in w'.tokens && w'.threads[n].now < w'.tokens[w'.threads[n].token].expiresAt
    {
      if !s.Lookup? {
        OnlyLookupAdmits(w, pkce, s, n);
        TokenStays(w, pkce, s, w'.threads[n].token);
        hide Next;
      }
    }
  }

  /** In every run a request admits a token only for a moment before the token's expiry. */
  lemma {:induction false} EveryAdmissionIsInTime(run: seq<World>, pkce: Pkce, i: nat)
    requires IsRun(run, pkce) && i < |run|
    ensures AdmittedInTime(run[i])
  {
    if i > 0 {
      EveryAdmissionIsInTime(run, pkce, i - 1);
      hide AdmittedInTime;
      hide Next;
      hide Enabled;
      assert Follows(run[i - 1], run[i - 1 + 1], pkce);
      var s :| Enabled(run[i - 1], s) && run[i] == Next(run[i - 1], pkce, s);
      StepKeepsInTime(run[i - 1], pkce, s);
    }
  }

  // ------------------------------------------------------------------- codes

  /** A code was minted for an ask no older than fifteen minutes, and requests on the way to
      one are for such an ask. */
  ghost predicate CodesAreTimely(w: World) {
    && (forall i | i in w.asks && w.asks[i].code.Some? ::
          w.asks[i].codeIssuedAt.Some? && w.asks[i].codeIssuedAt.value <= w.asks[i].askedAt + 900)
    && (forall n | n in w.threads && (w.threads[n].Polling? || w.threads[n].Approving?) ::
          w.threads[n].ask in w.asks && w.threads[n].now <= w.asks[w.threads[n].ask].askedAt + 900)
  }

  /** The same ask, with the first code it got if it had one, and spent if it was. */
  predicate SameAsk(a: Ask, a': Ask) {
    && a' == Ask(a.id, a.client, a.redirect, a.challenge, a.askedAt, a'.code, a'.codeIssuedAt, a'.codeUsed)
    && (a.code.Some? ==> a'.code == a.code && a'.codeIssuedAt == a.codeIssuedAt)
    && (a.codeUsed ==> a'.codeUsed)
  }

  lemma OtherAsksStay(w: World, pkce: Pkce, s: Step)
    requires Enabled(w, s) && !s.Authorize? && !s.Mint? && !s.Redeem?
    ensures Next(w, pkce, s).asks == w.asks
  {
    hide Registered;
    hide Undecided;
    hide RevokedToken;
    hide TouchedToken;
  }

  lemma AskStays(w: World, pkce: Pkce, s: Step, id: string)
    requires Enabled(w, s) && id in w.asks
    ensures id in Next(w, pkce, s).asks && SameAsk(w.asks[id], Next(w, pkce, s).asks[id])
  {
    hide Registered;
    hide Entitled;
    if !s.Authorize? && !s.Mint? && !s.Redeem? {
      OtherAsksStay(w, pkce, s);
      hide Next;
    }
  }

  lemma AskFollows(w: World, w': World, pkce: Pkce, id: string)
    requires Follows(w, w', pkce) && id in w.asks
    ensures id in w'.asks && SameAsk(w.asks[id], w'.asks[id])
  {
    hide Next;
    hide Enabled;
    hide SameAsk;
    var s :| Enabled(w, s) && w' == Next(w, pkce, s);
    AskStays(w, pkce, s, id);
  }

  /** Whatever happens, an ask stays as it was made and keeps the first code it gets. */
  lemma {:induction false} AskStaysAsMade(run: seq<World>, pkce: Pkce, i: nat, j: nat, id: string)
    requires IsRun(run, pkce) && i <= j < |run| && id in run[i].asks
    ensures id in run[j].asks && SameAsk(run[i].asks[id], run[j].asks[id])
    decreases j
  {
    hide Start;
    hide Follows;
    if i < j {
      AskStaysAsMade(run, pkce, i, j - 1, id);
      assert Follows(run[j - 1], run[j - 1 + 1], pkce);
      AskFollows(run[j - 1], run[j], pkce, id);
    }
  }

  /** A request on its way to a code was there before, or an ask in time was polled. */
  lemma WaitingStays(w: World, pkce: Pkce, s: Step, n: nat)
    requires CodesAreTimely(w) && Enabled(w, s)
    requires n in Next(w, pkce, s).threads && (Next(w, pkce, s).threads[n].Polling? || Next(w, pkce, s).threads[n].Approving?)
    ensures var t := Next(w, pkce, s).threads[n]; t.ask in w.asks && t.now <= w.asks[t.ask].askedAt + 900
  {
    OtherThreadsStay(w, pkce, s, n);
    hide Entitled;
    if (s.FindToRevoke? || s.Lookup?) && s.n == n {
      NotWaiting(w, pkce, s, n);
      hide Next;
    } else if !s.Poll? && !s.Answer? && !s.Redeem? {
      hide Next;
    }
  }

  lemma NotWaiting(w: World, pkce: Pkce, s: Step, n: nat)
    requires Enabled(w, s) && (s.FindToRevoke? || s.Lookup?) && s.n == n && n in Next(w, pkce, s).threads
    ensures !Next(w, pkce, s).threads[n].Polling? && !Next(w, pkce, s).threads[n].Approving?
  {
  }

  /** A new code is for an ask whose request is on its way. */
  lemma MintIsTimely(w: World, pkce: Pkce, s: Step, id: string)
    requires CodesAreTimely(w) && Enabled(w, s) && id in Next(w, pkce, s).asks && Next(w, pkce, s).asks[id].code.Some?
    ensures var a := Next(w, pkce, s).asks[id]; a.codeIssuedAt.Some? && a.codeIssuedAt.value <= a.askedAt + 900
  {
    hide Registered;
    hide Entitled;
    if !s.Authorize? && !s.Mint? && !s.Redeem? {
      OtherAsksStay(w, pkce, s);
      hide Next;
    }
  }

  lemma StepKeepsTimely(w: World, pkce: Pkce, s: Step)
    requires CodesAreTimely(w) && Enabled(w, s)
    ensures CodesAreTimely(Next(w, pkce, s))
  {
    var w' := Next(w, pkce, s);
    forall i | i in w'.asks && w'.asks[i].code.Some?
      ensures w'.asks[i].codeIssuedAt.Some? && w'.asks[i].codeIssuedAt.value <= w'.asks[i].askedAt + 900
    {
      MintIsTimely(w, pkce, s, i);
    }
    forall n | n in w'.threads && (w'.threads[n].Polling? || w'.threads[n].Approving?)
      ensures w'.threads[n].ask in w'.asks && w'.threads[n].now <= w'.asks[w'.threads[n].ask].askedAt + 900
    {
      WaitingStays(w, pkce, s, n);
      AskStays(w, pkce, s, w'.threads[n].ask);
    }
    hide Next;
    hide Enabled;
  }

  /** In every run every code was minted within fifteen minutes of its ask. */
  lemma {:induction false} EveryCodeIsTimely(run: seq<World>, pkce: Pkce, i: nat)
    requires IsRun(run, pkce) && i < |run|
    ensures CodesAreTimely(run[i])
  {
    if i > 0 {
      EveryCodeIsTimely(run, pkce, i - 1);
      hide CodesAreTimely;
      hide Next;
      hide Enabled;
      assert Follows(run[i - 1], run[i - 1 + 1], pkce);
      var s :| Enabled(run[i - 1], s) && run[i] == Next(run[i - 1], pkce, s);
      StepKeepsTimely(run[i - 1], pkce, s);
    }
  }

  /** From the start, in any world with a verifier that matches a well-formed challenge. */
  lemma LateAdmissionIsReached(pkce: Pkce, challenge: string, verifier: string) returns (run: seq<World>)
    requires ChallengeIsWellFormed(challenge) && pkce(verifier, challenge)
    ensures IsRun(run, pkce)
    ensures var w := run[|run| - 1];
            0 in w.threads && w.threads[0] == Admitted("t", 0) && "t" in w.tokens && !w.tokens["t"].IsLive()
  {
    run := TokenIsReached(pkce, challenge, verifier);
    run := LateAdmission(run, pkce, "t", 0, 1, 0);
  }

  lemma OneLivePerHash(tokens: Tokens, id: string, now: nat)
    requires TokensInv(tokens) && id in tokens && !tokens[id].IsLive()
    ensures forall k | k in tokens && tokens[k].hash == tokens[id].hash :: !tokens[k].IsLiveAt(now)
  {
  }
}
