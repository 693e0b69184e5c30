/** The token manager as an object, one method for each stretch of code between two awaits, and the
    retry loop of a provider request. */
module TokenCache {
  import opened Options
  import opened TokenProtocol

  class TokenManager {
    const skew: int
    var token: Option<Token>
    var expiresAt: int
    var locked: bool

    ghost function View(): Cache
      reads this
    {
      Cache(token, expiresAt)
    }

    constructor (skew: int)
      ensures View() == Cache(None, EARLIEST) && !locked && this.skew == skew
    {
      this.skew := skew;
      token, expiresAt, locked := None, EARLIEST, false;
    }

    predicate IsValid(now: int)
      reads this
      ensures IsValid(now) <==> Valid(View(), now, skew)
    {
      token.Some? && now + skew < expiresAt
    }

    /** The start of `get`: a valid token is returned without the lock. */
    method GetFast(now: int) returns (r: Option<Token>)
      ensures r == if Valid(View(), now, skew) then token else None
    {
      if IsValid(now) {
        return token;
      }
      return None;
    }

    /** Once the lock is taken: the token another worker refreshed, or nothing, and the lock stays held. */
    method GetEnter(now: int) returns (r: Option<Token>)
      requires !locked
      modifies this`locked
      ensures locked == !Valid(View(), now, skew)
      ensures r == if locked then None else token
    {
      locked := true;
      if IsValid(now) {
        locked := false;
        return token;
      }
      return None;
    }

    /** The issuer has answered. */
    method Arrive(accessToken: Token, expiresIn: int, now: int) returns (r: Token)
      requires locked && 0 < expiresIn
      modifies this
      ensures View() == Store(accessToken, expiresIn, now) && r == accessToken && !locked
    {
      token := Some(accessToken);
      expiresAt := now + expiresIn;
      locked := false;
      return accessToken;
    }

    /** The issuer has raised. */
    method Fail()
      requires locked
      modifies this`locked
      ensures !locked
    {
      locked := false;
    }

    /** `invalidate` once it has the lock. */
    method Invalidate(rejected: Token)
      requires !locked
      modifies this
      ensures View() == Discard(old(View()), rejected) && !locked
    {
      locked := true;
      if token == Some(rejected) {
        token := None;
        expiresAt := EARLIEST;
      }
      locked := false;
    }

    /** A whole `get` with nobody in between: the issuer is called exactly when the token is valid neither
        at the first look nor at the second one under the lock. */
    method Get(now: int, recheck: int, issued: Option<(Token, int)>, arrival: int)
      returns (r: Option<Token>, calls: nat)
      requires !locked && (issued.Some? ==> 0 < issued.value.1)
      modifies this
      ensures !locked
      ensures calls == Bit(!Valid(old(View()), now, skew) && !Valid(old(View()), recheck, skew))
      ensures calls == 0 ==> View() == old(View()) && r == old(token)
      ensures calls == 1 && issued.Some? ==>
        View() == Store(issued.value.0, issued.value.1, arrival) && r == Some(issued.value.0)
      ensures calls == 1 && issued.None? ==> View() == old(View()) && r == None
    {
      r := GetFast(now);
      if r.Some? {
        return r, 0;
      }
      r := GetEnter(recheck);
      if r.Some? {
        return r, 0;
      }
      if issued.None? {
        Fail();
        return None, 1;
      }
      var t := Arrive(issued.value.0, issued.value.1, arrival);
      return Some(t), 1;
    }
  }

  // ---- the retry loop ----

  datatype Reply = NetworkError | Status(code: int)

  datatype Kind = Validation | Authentication | Forbidden | NotFound | RateLimit | Unavailable

  datatype Outcome = Response(code: int) | Raised(kind: Kind) | Unconfigured | TokenFailed

  function KindOf(code: int): Kind {
    if code == 400 then Validation
    else if code == 401 then Authentication
    else if code == 403 then Forbidden
    else if code == 404 then NotFound
    else if code == 429 then RateLimit
    else if code >= 500 then Unavailable
    else Validation
  }

  function OutcomeOf(r: Reply): Outcome {
    match r
    case NetworkError => Raised(Unavailable)
    case Status(code) => if code < 400 then Response(code) else Raised(KindOf(code))
  }

  predicate Retryable(r: Reply) { r == NetworkError || r == Status(429) || (r.Status? && 500 <= r.code < 600) }

  /** Exactly the failures that may pass are retried: the network, a rate limit and a server error, unless its
      code is no server error any more. */
  lemma RetriedIsTransient(r: Reply)
    ensures Retryable(r) <==>
      && (OutcomeOf(r) == Raised(RateLimit) || OutcomeOf(r) == Raised(Unavailable))
      && (r.Status? ==> r.code < 600)
  {}

  /** Codes below 400 are responses; each of the special codes has its own error, server errors are
      unavailability, and all others are refused requests. */
  lemma OutcomeOfCode(code: int)
    ensures var o := OutcomeOf(Status(code));
      && (o.Response? <==> code < 400) && (o.Response? ==> o == Response(code))
      && (o == Raised(Authentication) <==> code == 401) && (o == Raised(Forbidden) <==> code == 403)
      && (o == Raised(NotFound) <==> code == 404) && (o == Raised(RateLimit) <==> code == 429)
      && (o == Raised(Unavailable) <==> 500 <= code)
      && (400 <= code < 500 && code !in {401, 403, 404, 429} ==> o == Raised(Validation))
  {}

  /** How many of the first `n` replies are retryable. */
  function Retries(replies: nat -> Reply, n: nat): nat {
    if n == 0 then 0 else Retries(replies, n - 1) + Bit(Retryable(replies(n - 1)))
  }

  predicate Rejected(replies: nat -> Reply, n: nat) { exists i :: 0 <= i < n && replies(i) == Status(401) }

  /** Reply `i` ends the request: a success, a second rejection, a retryable failure with no retries
      left, or any other error. */
  predicate Terminal(replies: nat -> Reply, i: nat, maxRetries: int) {
    if Retryable(replies(i)) then Retries(replies, i) >= maxRetries
    else replies(i) == Status(401) ==> Rejected(replies, i)
  }

  predicate Continues(replies: nat -> Reply, n: nat, maxRetries: int) {
    forall i :: 0 <= i < n ==> !Terminal(replies, i, maxRetries)
  }

  function MostSends(maxRetries: int): nat { (if maxRetries < 0 then 0 else maxRetries) + 2 }

  /** Every reply that did not end the request used one retry or the one renewal of the token. */
  lemma {:induction false} StepsAreCounted(replies: nat -> Reply, n: nat, maxRetries: int)
    requires Continues(replies, n, maxRetries)
    ensures n == Retries(replies, n) + Bit(Rejected(replies, n))
    ensures n + 1 <= MostSends(maxRetries)
  {
    if n > 0 {
      StepsAreCounted(replies, n - 1, maxRetries);
      assert !Terminal(replies, n - 1, maxRetries);
      if replies(n - 1) == Status(401) {
        assert Rejected(replies, n);
      } else {
        assert Rejected(replies, n) <==> Rejected(replies, n - 1);
      }
      RetriesWithin(replies, n, maxRetries);
    }
  }

  lemma {:induction false} RetriesWithin(replies: nat -> Reply, n: nat, maxRetries: int)
    requires Continues(replies, n, maxRetries)
    ensures Retries(replies, n) + 2 <= MostSends(maxRetries)
  {
    if n > 0 {
      RetriesWithin(replies, n - 1, maxRetries);
      assert !Terminal(replies, n - 1, maxRetries);
    }
  }

  function WorstCase(): nat -> Reply { i => if i == 0 then Status(401) else Status(500) }

  /** The bound is reached: one rejection, then failing servers until no retry is left. */
  lemma {:induction false} WorstCaseContinues(n: nat, maxRetries: int)
    requires n + 1 <= MostSends(maxRetries)
    ensures Continues(WorstCase(), n, maxRetries)
    ensures n > 0 ==> Retries(WorstCase(), n) == n - 1
  {
    if n > 0 {
      WorstCaseContinues(n - 1, maxRetries);
      if n == 1 {
        assert !Rejected(WorstCase(), 0);
      } else {
        hide Rejected;
        assert WorstCase()(n - 1) == Status(500);
      }
    }
  }

  /** `invalidate` has been called with the token of the first rejected send, once there is one. */
  predicate Renewed(tokens: nat -> Option<Token>, replies: nat -> Reply, n: nat, invalidated: seq<Token>) {
    && |invalidated| == Bit(Rejected(replies, n))
    && forall i :: 0 <= i < n && replies(i) == Status(401) && !Rejected(replies, i)
        ==> tokens(i).Some? && invalidated == [tokens(i).value]
  }

  lemma NothingRenewed(tokens: nat -> Option<Token>, replies: nat -> Reply)
    ensures Renewed(tokens, replies, 0, []) && !Rejected(replies, 0)
  {}

  lemma RenewedStep(tokens: nat -> Option<Token>, replies: nat -> Reply, n: nat, invalidated: seq<Token>)
    requires Renewed(tokens, replies, n, invalidated) && tokens(n).Some?
    ensures replies(n) == Status(401) && !Rejected(replies, n) ==>
      Renewed(tokens, replies, n + 1, [tokens(n).value]) && invalidated == []
    ensures replies(n) != Status(401) || Rejected(replies, n) ==> Renewed(tokens, replies, n + 1, invalidated)
    ensures Rejected(replies, n + 1) == (Rejected(replies, n) || replies(n) == Status(401))
  {
    assert Rejected(replies, n) ==> Rejected(replies, n + 1);
    if replies(n) == Status(401) { assert Rejected(replies, n + 1); }
    forall i | 0 <= i < n && replies(i) == Status(401) ensures Rejected(replies, n) {}
  }

  class MarketDataProvider {
    const configured: bool
    const maxRetries: int
    var lastSuccess: Option<int>
    var lastFailure: Option<int>

    constructor (configured: bool, maxRetries: int)
      ensures this.configured == configured && this.maxRetries == maxRetries && lastSuccess == None &&
        lastFailure == None
    {
      this.configured, this.maxRetries := configured, maxRetries;
      lastSuccess, lastFailure := None, None;
    }

    /** The loop of one request. `tokens(i)` is what the i-th `get` gives, `replies(i)` what the i-th
        send gets; `invalidated` lists the tokens passed to `invalidate`. */
    method Request(tokens: nat -> Option<Token>, replies: nat -> Reply, clock: nat -> int)
      returns (outcome: Outcome, sends: nat, invalidated: seq<Token>)
      modifies this
      ensures outcome == Unconfigured <==> !configured
      ensures outcome == Unconfigured ==> sends == 0
      ensures sends <= MostSends(maxRetries)
      ensures forall i :: 0 <= i < sends ==> tokens(i).Some?
      ensures outcome == TokenFailed ==> tokens(sends) == None && Continues(replies, sends, maxRetries)
      ensures outcome.Response? || outcome.Raised? ==>
        sends > 0 && Continues(replies, sends - 1, maxRetries) && Terminal(replies, sends - 1, maxRetries)
        && outcome == OutcomeOf(replies(sends - 1))
      ensures Renewed(tokens, replies, sends, invalidated) && |invalidated| <= 1
      ensures lastSuccess == if outcome.Response? then Some(clock(sends)) else old(lastSuccess)
      ensures lastFailure == if outcome.Raised? then Some(clock(sends)) else old(lastFailure)
    {
      hide Renewed, Rejected;
      sends, invalidated := 0, [];
      NothingRenewed(tokens, replies);
      if !configured {
        return Unconfigured, 0, [];
      }
      var authRetried, attempt := false, 0;
      while true
        invariant Continues(replies, sends, maxRetries)
        invariant attempt == Retries(replies, sends)
        invariant authRetried == Rejected(replies, sends)
        invariant forall i :: 0 <= i < sends ==> tokens(i).Some?
        invariant Renewed(tokens, replies, sends, invalidated) && |invalidated| <= 1
        invariant lastSuccess == old(lastSuccess) && lastFailure == old(lastFailure)
        decreases MostSends(maxRetries) - sends
      {
        StepsAreCounted(replies, sends, maxRetries);
        var token := tokens(sends);
        if token.None? {
          return TokenFailed, sends, invalidated;
        }
        var reply := replies(sends);
        RenewedStep(tokens, replies, sends, invalidated);
        sends := sends + 1;
        if reply == NetworkError {
          if attempt >= maxRetries {
            lastFailure := Some(clock(sends));
            return Raised(Unavailable), sends, invalidated;
          }
          attempt := attempt + 1;
          continue;
        }
        if reply.code == 401 && !authRetried {
          authRetried := true;
          assert invalidated + [token.value] == [token.value];
          invalidated := invalidated + [token.value];
          continue;
        }
        if reply.code < 400 {
          lastSuccess := Some(clock(sends));
          return Response(reply.code), sends, invalidated;
        }
        if reply.code == 429 && attempt < maxRetries {
          attempt := attempt + 1;
          continue;
        }
        if 500 <= reply.code < 600 && attempt < maxRetries {
          attempt := attempt + 1;
          continue;
        }
        lastFailure := Some(clock(sends));
        return Raised(KindOf(reply.code)), sends, invalidated;
      }
    }
  }
}
