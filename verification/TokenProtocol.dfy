/** The process-wide token cache as a protocol: any number of workers call `get` and `invalidate`, one
    lock serialises refreshes, and every await is a point where other workers and the clock may move. */
module TokenProtocol {
  import opened Options

  type Worker = nat
  type Token = string

  /** What the manager stores. */
  datatype Cache = Cache(token: Option<Token>, expiresAt: int)

  /** The expiry stored when there is no token: the earliest time there is. */
  const EARLIEST := 0

  /** A token counts as valid until `skew` seconds before it expires. */
  predicate Valid(c: Cache, now: int, skew: int) { c.token.Some? && now + skew < c.expiresAt }

  function Store(token: Token, expiresIn: int, now: int): Cache { Cache(Some(token), now + expiresIn) }

  /** A stored token is valid until the skew before its life ends, a discarded one never, and another
      worker's token stays as it is. */
  lemma TokenLifetime(c: Cache, token: Token, rejected: Token, expiresIn: int, arrival: int, now: int, skew: int)
    ensures Store(token, expiresIn, arrival).token == Some(token)
    ensures Valid(Store(token, expiresIn, arrival), now, skew) <==> now - arrival < expiresIn - skew
    ensures c.token == Some(rejected) ==> !Valid(Discard(c, rejected), now, skew)
    ensures c.token != Some(rejected) ==> Discard(c, rejected) == c
  {}

  /** Discards the token only if it is the rejected one. */
  function Discard(c: Cache, rejected: Token): Cache {
    if c.token == Some(rejected) then Cache(None, EARLIEST) else c
  }

  /** Where a worker stands: outside, waiting for the lock in `get` or `invalidate`, or holding it while
      the issuer answers. */
  datatype Task = Idle | AwaitGet | AwaitDiscard(rejected: Token) | Issuing

  /** What has happened so far: issued tokens, tokens that `invalidate` really discarded, how many of
      those were still valid, validity lost to time, regained from a clock set back, and valid tokens
      replaced by an issue. */
  datatype History = History(
    issued: seq<Token>,
    invalidated: seq<Token>,
    dropped: nat,
    expiries: nat,
    revivals: nat,
    overwritten: nat)

  datatype System = System(
    tasks: map<Worker, Task>,
    holder: Option<Worker>,
    cache: Cache,
    now: int,
    skew: int,
    history: History)

  datatype Event =
    | GetFast(w: Worker)
    | GetWait(w: Worker)
    | GetEnter(w: Worker)
    | Arrive(w: Worker, token: Token, expiresIn: int)
    | Fail(w: Worker)
    | DiscardWait(w: Worker, rejected: Token)
    | DiscardEnter(w: Worker)
    | Tick(time: int)

  function TaskOf(s: System, w: Worker): Task { if w in s.tasks then s.tasks[w] else Idle }

  predicate IsValid(s: System) { Valid(s.cache, s.now, s.skew) }

  predicate Enabled(s: System, e: Event) {
    match e
    case GetFast(w) => TaskOf(s, w) == Idle && IsValid(s)
    case GetWait(w) => TaskOf(s, w) == Idle && !IsValid(s)
    case GetEnter(w) => TaskOf(s, w) == AwaitGet && s.holder == None
    case Arrive(w, token, expiresIn) => TaskOf(s, w) == Issuing && token != [] && 0 < expiresIn
    case Fail(w) => TaskOf(s, w) == Issuing
    case DiscardWait(w, rejected) => TaskOf(s, w) == Idle
    case DiscardEnter(w) => TaskOf(s, w).AwaitDiscard? && s.holder == None
    case Tick(time) => true
  }

  function With(s: System, w: Worker, t: Task): System { s.(tasks := s.tasks[w := t]) }

  function Bit(b: bool): nat { if b then 1 else 0 }

  /** One step; the lock is taken and released inside the step unless the issuer is called. */
  function Next(s: System, e: Event): System
    requires Enabled(s, e)
  {
    match e
    case GetFast(w) => s
    case GetWait(w) => With(s, w, AwaitGet)
    case GetEnter(w) => if IsValid(s) then With(s, w, Idle) else With(s, w, Issuing).(holder := Some(w))
    case Arrive(w, token, expiresIn) =>
      var h := s.history;
      var cache := Store(token, expiresIn, s.now);
      With(s, w, Idle).(holder := None, cache := cache,
        history := h.(issued := h.issued + [token],
                      overwritten := h.overwritten + Bit(IsValid(s)),
                      expiries := h.expiries + Bit(!Valid(cache, s.now, s.skew))))
    case Fail(w) => With(s, w, Idle).(holder := None)
    case DiscardWait(w, rejected) => With(s, w, AwaitDiscard(rejected))
    case DiscardEnter(w) =>
      var rejected := TaskOf(s, w).rejected;
      var h := s.history;
      if s.cache.token == Some(rejected) then
        With(s, w, Idle).(cache := Discard(s.cache, rejected),
          history := h.(invalidated := h.invalidated + [rejected], dropped := h.dropped + Bit(IsValid(s))))
      else With(s, w, Idle)
    case Tick(time) =>
      var h := s.history;
      var valid := Valid(s.cache, time, s.skew);
      s.(now := time, history := h.(expiries := h.expiries + Bit(IsValid(s) && !valid),
                                    revivals := h.revivals + Bit(!IsValid(s) && valid)))
  }

  function Initial(skew: int, now: int): System {
    System(map[], None, Cache(None, EARLIEST), now, skew, History([], [], 0, 0, 0, 0))
  }

  /** An interleaving that can happen from a state. */
  predicate Possible(s: System, events: seq<Event>)
    decreases |events|, 0
  {
    events == [] ||
    (Possible(s, events[..|events| - 1]) && Enabled(After(s, events[..|events| - 1]), events[|events| - 1]))
  }

  function After(s: System, events: seq<Event>): System
    requires Possible(s, events)
    decreases |events|, 1
  {
    if events == [] then s else Next(After(s, events[..|events| - 1]), events[|events| - 1])
  }

  // ---- invariants ----

  /** The holder of the lock is the one worker that is calling the issuer. */
  predicate LockInv(s: System) {
    && (s.holder.Some? ==> TaskOf(s, s.holder.value) == Issuing)
    && forall w :: w in s.tasks && s.tasks[w] == Issuing ==> s.holder == Some(w)
  }

  /** Validity gained equals validity lost plus validity still there. */
  predicate Balance(s: System) {
    var h := s.history;
    |h.issued| + h.revivals == h.dropped + h.expiries + h.overwritten + Bit(IsValid(s)) && h.dropped <= |h.invalidated|
  }

  function Held(c: Cache): multiset<Token> { if c.token.Some? then multiset{c.token.value} else multiset{} }

  /** Discarded tokens, with the one still held, were all issued, as often as that. */
  predicate Accounted(s: System) {
    multiset(s.history.invalidated) + Held(s.cache) <= multiset(s.history.issued)
  }

  predicate Inv(s: System) { LockInv(s) && Balance(s) && Accounted(s) }

  lemma NextKeepsLock(s: System, e: Event)
    requires LockInv(s) && Enabled(s, e)
    ensures LockInv(Next(s, e))
  {}

  lemma NextKeepsBalance(s: System, e: Event)
    requires Balance(s) && Enabled(s, e)
    ensures Balance(Next(s, e))
  {}

  lemma AppendCounts(s: seq<Token>, t: Token)
    ensures multiset(s + [t]) == multiset(s) + multiset{t}
  {}

  lemma NextKeepsAccounted(s: System, e: Event)
    requires Accounted(s) && Enabled(s, e)
    ensures Accounted(Next(s, e))
  {
    var h, k := s.history, Next(s, e).history;
    match e {
      case Arrive(w, token, expiresIn) => AppendCounts(h.issued, token);
      case DiscardEnter(w) => AppendCounts(h.invalidated, TaskOf(s, w).rejected);
      case GetFast(w) =>
      case GetWait(w) =>
      case GetEnter(w) =>
      case Fail(w) =>
      case DiscardWait(w, rejected) =>
      case Tick(time) =>
    }
  }

  lemma {:induction false} InvThroughout(s: System, events: seq<Event>)
    requires Inv(s) && Possible(s, events)
    ensures Inv(After(s, events))
    decreases |events|
  {
    if events != [] {
      var front, e := events[..|events| - 1], events[|events| - 1];
      InvThroughout(s, front);
      NextKeepsLock(After(s, front), e);
      NextKeepsBalance(After(s, front), e);
      NextKeepsAccounted(After(s, front), e);
    }
  }

  lemma InitialInv(skew: int, now: int)
    ensures Inv(Initial(skew, now))
  {}

  // ---- theorems over every interleaving ----

  /** Issuer calls never overlap: at most one worker is waiting for the issuer, and it holds the lock. */
  lemma IssuersNeverOverlap(skew: int, now: int, events: seq<Event>, v: Worker, w: Worker)
    requires Possible(Initial(skew, now), events)
    ensures var s := After(Initial(skew, now), events);
      TaskOf(s, v) == Issuing && TaskOf(s, w) == Issuing ==> v == w && s.holder == Some(w)
  {
    InitialInv(skew, now);
    InvThroughout(Initial(skew, now), events);
  }

  /** How many revivals an issue in progress could still overwrite. */
  function Pending(s: System): nat { Bit(s.holder.Some? && IsValid(s)) }

  /** A valid token can only be overwritten after the clock was set back during the issue. */
  lemma OverwritesAreRevived(s: System, e: Event)
    requires LockInv(s) && Enabled(s, e)
    ensures var t := Next(s, e);
      t.history.overwritten + Pending(t) - t.history.revivals <= s.history.overwritten + Pending(s) - s.history.revivals
  {}

  lemma {:induction false} OverwritesThroughout(s: System, events: seq<Event>)
    requires Inv(s) && Possible(s, events)
    ensures var t := After(s, events);
      t.history.overwritten + Pending(t) - t.history.revivals <= s.history.overwritten + Pending(s) - s.history.revivals
    decreases |events|
  {
    if events != [] {
      var front, e := events[..|events| - 1], events[|events| - 1];
      InvThroughout(s, front);
      OverwritesThroughout(s, front);
      OverwritesAreRevived(After(s, front), e);
    }
  }

  lemma {:induction false} PossibleConcat(s: System, first: seq<Event>, rest: seq<Event>)
    requires Possible(s, first + rest)
    ensures Possible(s, first) && Possible(After(s, first), rest)
    ensures After(s, first + rest) == After(After(s, first), rest)
    decreases |rest|
  {
    if rest == [] {
      assert first + rest == first;
    } else {
      assert (first + rest)[..|first + rest| - 1] == first + rest[..|rest| - 1];
      PossibleConcat(s, first, rest[..|rest| - 1]);
    }
  }

  /** Over any stretch of any run, however many workers ask and however the clock moves, the issuer
      completes at most once more than tokens were discarded or expired in that stretch. */
  lemma IssuesAreCoalesced(skew: int, now: int, first: seq<Event>, rest: seq<Event>)
    requires Possible(Initial(skew, now), first + rest)
    ensures Possible(Initial(skew, now), first)
    ensures var h, k := After(Initial(skew, now), first).history, After(Initial(skew, now), first + rest).history;
      && |k.issued| - |h.issued| <= 1 + (k.expiries - h.expiries) + (k.dropped - h.dropped)
      && |k.issued| <= 1 + k.expiries + |k.invalidated|
  {
    var s := Initial(skew, now);
    PossibleConcat(s, first, rest);
    InitialInv(skew, now);
    InvThroughout(s, first);
    InvThroughout(After(s, first), rest);
    OverwritesThroughout(After(s, first), rest);
    OverwritesThroughout(s, first + rest);
  }

  /** A token is discarded at most as often as it was issued, however many workers had it rejected; when
      the issuer never repeats a token, at most once. */
  lemma DiscardedAtMostOncePerIssue(skew: int, now: int, events: seq<Event>, t: Token)
    requires Possible(Initial(skew, now), events)
    ensures var h := After(Initial(skew, now), events).history;
      && multiset(h.invalidated)[t] <= multiset(h.issued)[t]
      && ((forall i, j :: 0 <= i < j < |h.issued| ==> h.issued[i] != h.issued[j]) ==> multiset(h.invalidated)[t] <= 1)
  {
    InitialInv(skew, now);
    InvThroughout(Initial(skew, now), events);
    var h := After(Initial(skew, now), events).history;
    if forall i, j :: 0 <= i < j < |h.issued| ==> h.issued[i] != h.issued[j] { OnceEach(h.issued, t); }
  }

  lemma {:induction false} OnceEach(s: seq<Token>, t: Token)
    requires forall i, j :: 0 <= i < j < |s| ==> s[i] != s[j]
    ensures multiset(s)[t] <= 1
  {
    if s != [] {
      OnceEach(s[1..], t);
      assert s == [s[0]] + s[1..];
      forall k | 0 <= k < |s[1..]| ensures s[1..][k] != s[0] { assert s[k + 1] != s[0]; }
    }
  }

  /** Nobody waits forever for lack of a step: when a worker is not idle, the lock is free and it can go
      on, or the holder can. */
  lemma SomeoneCanMove(skew: int, now: int, events: seq<Event>, w: Worker)
    requires Possible(Initial(skew, now), events) && TaskOf(After(Initial(skew, now), events), w) != Idle
    ensures var s := After(Initial(skew, now), events);
      || Enabled(s, GetEnter(w)) || Enabled(s, DiscardEnter(w))
      || (s.holder.Some? && Enabled(s, Fail(s.holder.value)))
  {
    InitialInv(skew, now);
    InvThroughout(Initial(skew, now), events);
  }

  /** What `get` hands out, when a step ends one: the cached token, or the one that just arrived. */
  function Returned(s: System, e: Event): Option<Token> {
    match e
    case GetFast(w) => s.cache.token
    case GetEnter(w) => if IsValid(s) then s.cache.token else None
    case Arrive(w, token, expiresIn) => Some(token)
    case _ => None
  }

  /** Every token handed out is the one held now, so it was issued more often than discarded, and it is
      valid unless it arrived with no more life than the skew. */
  lemma ReturnedIsLive(skew: int, now: int, events: seq<Event>, e: Event)
    requires Possible(Initial(skew, now), events + [e])
    requires Possible(Initial(skew, now), events) && Enabled(After(Initial(skew, now), events), e)
    requires Returned(After(Initial(skew, now), events), e).Some?
    ensures var t := After(Initial(skew, now), events + [e]);
      var token := Returned(After(Initial(skew, now), events), e).value;
      && t.cache.token == Some(token)
      && multiset(t.history.invalidated)[token] < multiset(t.history.issued)[token]
      && (!IsValid(t) ==> e.Arrive? && e.expiresIn <= skew)
  {
    InitialInv(skew, now);
    InvThroughout(Initial(skew, now), events + [e]);
    assert (events + [e])[..|events + [e]| - 1] == events;
    SkewIsConstant(Initial(skew, now), events);
    var t := After(Initial(skew, now), events + [e]);
    var token := Returned(After(Initial(skew, now), events), e).value;
    assert Held(t.cache)[token] == 1;
  }

  lemma {:induction false} SkewIsConstant(s: System, events: seq<Event>)
    requires Possible(s, events)
    ensures After(s, events).skew == s.skew
    decreases |events|
  {
    if events != [] { SkewIsConstant(s, events[..|events| - 1]); }
  }
}
