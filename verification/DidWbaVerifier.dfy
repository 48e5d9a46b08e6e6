/** anp/anp/authentication/did_wba_verifier.py: the timestamp gate and the internal one-time nonce gate, and
    exactly when the two together rule out a replay. Times are integer microseconds; each gate reads
    the clock for itself. */
module DidWbaVerifiers {
  import opened Wrappers

  const MINUTE: int := 60_000_000

  datatype Config = Config(nonceExpirationMinutes: int, timestampExpirationMinutes: int)

  /** The defaults of DidWbaVerifierConfig. */
  const DEFAULT_CONFIG := Config(6, 5)

  /** A timestamp that cannot be parsed is None. */
  datatype Request = Request(nonce: string, timestamp: Option<int>)

  type Nonces = map<string, int>

  // ---- the two gates as functions ----

  predicate VerifyTimestamp(config: Config, timestamp: Option<int>, now: int) {
    match timestamp
    case None => false
    case Some(requestTime) =>
      && !(requestTime - now > MINUTE)
      && !(now - requestTime > config.timestampExpirationMinutes * MINUTE)
  }

  predicate NonceExpired(config: Config, seenAt: int, now: int) {
    now - seenAt > config.nonceExpirationMinutes * MINUTE
  }

  function Unexpired(config: Config, nonces: Nonces, now: int): Nonces {
    map n | n in nonces && !NonceExpired(config, nonces[n], now) :: nonces[n]
  }

  /** A request whose timestamp is checked at one time and whose nonce at another. */
  predicate Passes(config: Config, nonces: Nonces, request: Request, checkedAt: int, storedAt: int) {
    && VerifyTimestamp(config, request.timestamp, checkedAt)
    && request.nonce !in Unexpired(config, nonces, storedAt)
  }

  function After(config: Config, nonces: Nonces, request: Request, checkedAt: int, storedAt: int): Nonces {
    if !VerifyTimestamp(config, request.timestamp, checkedAt) then nonces
    else
      var kept := Unexpired(config, nonces, storedAt);
      if request.nonce in kept then kept else kept[request.nonce := storedAt]
  }

  class DidWbaVerifier {
    const config: Config
    var validServerNonces: Nonces

    constructor (config: Config)
      ensures this.config == config && validServerNonces == map[]
    {
      this.config := config;
      validServerNonces := map[];
    }

    /** _is_valid_server_nonce without an external validator */
    method IsValidServerNonce(nonce: string, now: int) returns (ok: bool)
      modifies this
      ensures ok <==> nonce !in Unexpired(config, old(validServerNonces), now)
      ensures validServerNonces
           == if ok then Unexpired(config, old(validServerNonces), now)[nonce := now]
              else Unexpired(config, old(validServerNonces), now)
    {
      var expired := set n | n in validServerNonces && NonceExpired(config, validServerNonces[n], now);
      var todo := expired;
      while todo != {}
        invariant todo <= expired
        invariant validServerNonces == old(validServerNonces) - (expired - todo)
        decreases todo
      {
        var n :| n in todo;
        validServerNonces := validServerNonces - {n};
        todo := todo - {n};
      }
      assert validServerNonces == Unexpired(config, old(validServerNonces), now);
      if nonce in validServerNonces {
        return false;
      }
      validServerNonces := validServerNonces[nonce := now];
      return true;
    }

    /** The first two checks of _handle_did_auth, in their order, with the clock reading of each. */
    method PassGates(request: Request, checkedAt: int, storedAt: int) returns (ok: bool)
      modifies this
      ensures ok <==> Passes(config, old(validServerNonces), request, checkedAt, storedAt)
      ensures validServerNonces == After(config, old(validServerNonces), request, checkedAt, storedAt)
    {
      if !VerifyTimestamp(config, request.timestamp, checkedAt) {
        return false;
      }
      ok := IsValidServerNonce(request.nonce, storedAt);
    }
  }

  // ---- runs ----

  /** One request and the two clock readings when it is handled. */
  datatype Event = Event(request: Request, checkedAt: int, storedAt: int)

  function NoncesAfter(config: Config, events: seq<Event>): Nonces {
    if events == [] then map[]
    else
      var last := events[|events| - 1];
      After(config, NoncesAfter(config, events[..|events| - 1]), last.request, last.checkedAt, last.storedAt)
  }

  predicate Accepted(config: Config, events: seq<Event>, i: nat)
    requires i < |events|
  {
    Passes(config, NoncesAfter(config, events[..i]), events[i].request, events[i].checkedAt, events[i].storedAt)
  }

  /** The clock never goes back, within a request or between two. */
  ghost predicate ClockNeverBack(events: seq<Event>) {
    && (forall i :: 0 <= i < |events| ==> events[i].checkedAt <= events[i].storedAt)
    && (forall i, j :: 0 <= i < j < |events| ==> events[i].storedAt <= events[j].checkedAt)
  }

  /** The two readings of a request are at most `gap` apart. */
  ghost predicate GapsWithin(events: seq<Event>, gap: nat) {
    forall i :: 0 <= i < |events| ==> events[i].storedAt - events[i].checkedAt <= gap
  }

  /** No nonce-timestamp pair is accepted twice. */
  ghost predicate NoReplay(config: Config, events: seq<Event>) {
    forall i, j :: 0 <= i < j < |events| && Accepted(config, events, i) && Accepted(config, events, j) ==>
      events[i].request != events[j].request
  }

  ghost predicate ReplaySafe(config: Config, gap: nat) {
    forall events :: ClockNeverBack(events) && GapsWithin(events, gap) ==> NoReplay(config, events)
  }

  /** A nonce stays known for the nonce lifetime after its acceptance, whatever comes between. */
  lemma {:induction false} NonceRemembered(config: Config, events: seq<Event>, i: nat, now: int)
    requires i < |events| && ClockNeverBack(events) && Accepted(config, events, i)
    requires events[|events| - 1].storedAt <= now && !NonceExpired(config, events[i].storedAt, now)
    ensures events[i].request.nonce in Unexpired(config, NoncesAfter(config, events), now)
    ensures NoncesAfter(config, events)[events[i].request.nonce] >= events[i].storedAt
  {
    var n := |events| - 1;
    var last := events[n];
    if i < n {
      var before := events[..n];
      assert before[..i] == events[..i];
      NonceRemembered(config, before, i, last.storedAt);
    }
  }

  /** Only accepted requests leave their nonce behind. */
  lemma {:induction false} KnownNonceWasAccepted(config: Config, events: seq<Event>, nonce: string) returns (i: nat)
    requires nonce in NoncesAfter(config, events)
    ensures i < |events| && events[i].request.nonce == nonce && Accepted(config, events, i)
    ensures NoncesAfter(config, events)[nonce] == events[i].storedAt
  {
    var n := |events| - 1;
    var last := events[n];
    if Accepted(config, events, n) && last.request.nonce == nonce {
      i := n;
    } else {
      i := KnownNonceWasAccepted(config, events[..n], nonce);
      assert events[..n][..i] == events[..i];
    }
  }

  /** The gates without their table: a request passes exactly when its timestamp is acceptable and every
      earlier accepted request with its nonce is older than the nonce lifetime. */
  lemma AcceptedIff(config: Config, events: seq<Event>, j: nat)
    requires ClockNeverBack(events) && j < |events|
    ensures Accepted(config, events, j) <==>
      && VerifyTimestamp(config, events[j].request.timestamp, events[j].checkedAt)
      && forall i :: 0 <= i < j && Accepted(config, events, i) && events[i].request.nonce == events[j].request.nonce ==>
           NonceExpired(config, events[i].storedAt, events[j].storedAt)
  {
    var before, nonce, now := events[..j], events[j].request.nonce, events[j].storedAt;
    forall i | 0 <= i < j && Accepted(config, events, i) && events[i].request.nonce == nonce
             && !NonceExpired(config, events[i].storedAt, now)
      ensures !Accepted(config, events, j)
    {
      assert before[..i] == events[..i];
      NonceRemembered(config, before, i, now);
    }
    if nonce in Unexpired(config, NoncesAfter(config, before), now) {
      var i := KnownNonceWasAccepted(config, before, nonce);
      assert before[..i] == events[..i];
    }
  }

  // ---- exactly when replays are excluded ----

  /** Nonces outlive the span in which one timestamp is acceptable, and the gap between the readings on top. */
  predicate MemoryLongEnough(config: Config, gap: nat) {
    config.nonceExpirationMinutes * MINUTE >= (config.timestampExpirationMinutes + 1) * MINUTE + gap
  }

  /** The span in which one timestamp is acceptable. */
  lemma AcceptanceSpan(config: Config, timestamp: Option<int>, first: int, second: int)
    requires VerifyTimestamp(config, timestamp, first) && VerifyTimestamp(config, timestamp, second)
    ensures second - first <= (config.timestampExpirationMinutes + 1) * MINUTE
  {
  }

  lemma LongMemoryIsSafe(config: Config, gap: nat, events: seq<Event>, i: nat, j: nat)
    requires MemoryLongEnough(config, gap) && GapsWithin(events, gap)
    requires ClockNeverBack(events) && i < j < |events|
    requires Accepted(config, events, i) && Accepted(config, events, j)
    ensures events[i].request != events[j].request
  {
    if events[i].request == events[j].request {
      AcceptanceSpan(config, events[i].request.timestamp, events[i].checkedAt, events[j].checkedAt);
      assert events[..j][..i] == events[..i];
      NonceRemembered(config, events[..j], i, events[j].storedAt);
    }
  }

  lemma NothingAccepted(config: Config, events: seq<Event>, i: nat)
    requires config.timestampExpirationMinutes < -1 && i < |events|
    ensures !Accepted(config, events, i)
  {
  }

  /** The run that replays a request when nonces are forgotten too early: the first time it is handled at once, the
      second time its nonce is looked up as late as possible. */
  function ReplayRun(config: Config, gap: nat): seq<Event> {
    var request, late := Request("n", Some(0)), config.timestampExpirationMinutes * MINUTE;
    [Event(request, -MINUTE, -MINUTE), Event(request, late, late + gap)]
  }

  lemma ShortMemoryReplays(config: Config, gap: nat)
    requires !MemoryLongEnough(config, gap) && config.timestampExpirationMinutes >= -1
    ensures var events := ReplayRun(config, gap);
            ClockNeverBack(events) && GapsWithin(events, gap) && !NoReplay(config, events)
  {
    var events := ReplayRun(config, gap);
    assert events[..0] == [];
    assert events[..1][..0] == [];
    assert NoncesAfter(config, events[..1]) == map["n" := -MINUTE];
    assert Accepted(config, events, 0) && Accepted(config, events, 1);
  }

  /** The two gates exclude replays in every run whose clock readings within a request are at most `gap` apart exactly
      when nonces outlive timestamps by a minute and that gap (or no timestamp is ever accepted). */
  lemma ReplaySafeIff(config: Config, gap: nat)
    ensures ReplaySafe(config, gap) <==> MemoryLongEnough(config, gap) || config.timestampExpirationMinutes < -1
  {
    if config.timestampExpirationMinutes < -1 {
      forall events: seq<Event>, i: nat | i < |events|
        ensures !Accepted(config, events, i)
      {
        NothingAccepted(config, events, i);
      }
    } else if MemoryLongEnough(config, gap) {
      forall events: seq<Event>, i: nat, j: nat | ClockNeverBack(events) && GapsWithin(events, gap) && i < j < |events|
             && Accepted(config, events, i) && Accepted(config, events, j)
        ensures events[i].request != events[j].request
      {
        LongMemoryIsSafe(config, gap, events, i, j);
      }
    } else {
      ShortMemoryReplays(config, gap);
    }
  }

  /** The defaults are safe when the two readings of a request agree, and only then; a nonce lifetime of a minute more
      is safe for readings up to a minute apart. */
  lemma DefaultsAreReplaySafe(gap: nat)
    ensures ReplaySafe(DEFAULT_CONFIG, gap) <==> gap == 0
    ensures ReplaySafe(DEFAULT_CONFIG.(nonceExpirationMinutes := 7), gap) <==> gap <= MINUTE
  {
    ReplaySafeIff(DEFAULT_CONFIG, gap);
    ReplaySafeIff(DEFAULT_CONFIG.(nonceExpirationMinutes := 7), gap);
  }

  /** With the defaults a timestamp is acceptable from five minutes back to one minute ahead; one that cannot be parsed
      is not. */
  lemma TimestampIff(timestamp: Option<int>, now: int)
    ensures VerifyTimestamp(DEFAULT_CONFIG, timestamp, now) <==>
              timestamp.Some? && now - 300_000_000 <= timestamp.value <= now + 60_000_000
  {
  }
}
