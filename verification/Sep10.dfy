/** The SEP-10 challenge store: issuing, verifying once, sweeping. */
module Sep10 {
  import opened Wrappers

  type Token = string
  type PublicKey = string
  type Hash = int
  type Signature = int
  type Hint = int

  /** The Stellar SDK's cryptography, left uninterpreted. */
  datatype Crypto = Crypto(server: PublicKey, wellFormed: PublicKey -> bool, hint: PublicKey -> Hint,
                           verify: (PublicKey, Hash, Signature) -> bool)

  datatype Challenge = Challenge(publicKey: PublicKey, transactionXDR: string, expiresAt: int, used: bool)

  type Store = map<Token, Challenge>

  datatype TimeBounds = TimeBounds(minTime: int, maxTime: int)

  datatype Operation = ManageData(name: string) | OtherOperation

  datatype DecoratedSignature = DecoratedSignature(hint: Hint, signature: Signature)

  /** What the SDK makes of the submitted text. */
  datatype Submitted =
    | Unparseable
    | Transaction(timeBounds: Option<TimeBounds>, operations: seq<Operation>, hash: Hash,
                  signatures: seq<DecoratedSignature>)

  datatype Error =
    | NotFound | AlreadyUsed | Expired | NotParsed | NoTimeBounds | NotYetValid | BoundsExpired
    | TooFewOperations | WrongDomainOperation | ServerSignature | ClientSignature

  datatype Verdict = Valid(publicKey: PublicKey) | Invalid(error: Error)

  const CHALLENGE_WINDOW_SECONDS := 300

  /** `Math.floor(now / 1000)`, for any sign. */
  function Seconds(now: int): int {
    now / 1000
  }

  function Expiry(now: int): int {
    (Seconds(now) + CHALLENGE_WINDOW_SECONDS) * 1000
  }

  // ----- Signatures -----

  predicate SignedBy(crypto: Crypto, key: PublicKey, hash: Hash, s: DecoratedSignature) {
    s.hint == crypto.hint(key) && crypto.verify(key, hash, s.signature)
  }

  predicate HasSignature(crypto: Crypto, key: PublicKey, hash: Hash, sigs: seq<DecoratedSignature>) {
    exists i :: 0 <= i < |sigs| && SignedBy(crypto, key, hash, sigs[i])
  }

  /** The loop stops early once it has found both signatures, and accepts exactly when both exist. */
  method CheckSignatures(crypto: Crypto, client: PublicKey, hash: Hash, sigs: seq<DecoratedSignature>)
      returns (hasValidServerSig: bool, hasValidClientSig: bool)
    ensures hasValidServerSig <==> HasSignature(crypto, crypto.server, hash, sigs)
    ensures hasValidClientSig <==> HasSignature(crypto, client, hash, sigs)
  {
    hasValidServerSig, hasValidClientSig := false, false;
    for n := 0 to |sigs|
      invariant hasValidServerSig <==> exists i :: 0 <= i < n && SignedBy(crypto, crypto.server, hash, sigs[i])
      invariant hasValidClientSig <==> exists i :: 0 <= i < n && SignedBy(crypto, client, hash, sigs[i])
      invariant !(hasValidServerSig && hasValidClientSig)
    {
      var s := sigs[n];
      if !hasValidServerSig && s.hint == crypto.hint(crypto.server) {
        hasValidServerSig := crypto.verify(crypto.server, hash, s.signature);
      }
      if !hasValidClientSig && s.hint == crypto.hint(client) {
        hasValidClientSig := crypto.verify(client, hash, s.signature);
      }
      assert (exists i :: 0 <= i < n + 1 && SignedBy(crypto, client, hash, sigs[i])) <==>
             (exists i :: 0 <= i < n && SignedBy(crypto, client, hash, sigs[i])) ||
               SignedBy(crypto, client, hash, sigs[n]);
      assert (exists i :: 0 <= i < n + 1 && SignedBy(crypto, crypto.server, hash, sigs[i])) <==>
             (exists i :: 0 <= i < n && SignedBy(crypto, crypto.server, hash, sigs[i])) ||
               SignedBy(crypto, crypto.server, hash, sigs[n]);
      if hasValidServerSig && hasValidClientSig {
        break;
      }
    }
  }

  /** The checks on the submitted transaction, in their order. */
  function Examine(crypto: Crypto, client: PublicKey, now: int, tx: Submitted): Verdict {
    if tx.Unparseable? then Invalid(NotParsed)
    else if tx.timeBounds.None? then Invalid(NoTimeBounds)
    else if Seconds(now) < tx.timeBounds.value.minTime then Invalid(NotYetValid)
    else if Seconds(now) > tx.timeBounds.value.maxTime then Invalid(BoundsExpired)
    else if |tx.operations| < 2 then Invalid(TooFewOperations)
    else if tx.operations[0] != ManageData("web_auth_domain") then Invalid(WrongDomainOperation)
    else if !HasSignature(crypto, crypto.server, tx.hash, tx.signatures) then Invalid(ServerSignature)
    else if !HasSignature(crypto, client, tx.hash, tx.signatures) then Invalid(ClientSignature)
    else Valid(client)
  }

  // ----- Steps -----

  datatype Action =
    | Generate(publicKey: PublicKey, token: Token, xdr: string)
    | Verify(token: Token, tx: Submitted, later: int)  // the clock is read again for the time bounds
    | CountActive
    | Sweep

  datatype Event = Event(now: int, action: Action)

  datatype Answer = Issued(expiresAt: int) | Refused | Verified(verdict: Verdict) | Active(count: nat) | Swept

  predicate IsActive(c: Challenge, now: int) {
    !c.used && c.expiresAt > now
  }

  function VerifyStep(crypto: Crypto, s: Store, now: int, token: Token, tx: Submitted, later: int): (Store, Verdict) {
    if token !in s then (s, Invalid(NotFound))
    else if s[token].used then (s, Invalid(AlreadyUsed))
    else if s[token].expiresAt < now then (s - {token}, Invalid(Expired))
    else
      var v := Examine(crypto, s[token].publicKey, later, tx);
      (if v.Valid? then s[token := s[token].(used := true)] else s, v)
  }

  function SweepStep(s: Store, now: int): Store {
    map t | t in s && s[t].expiresAt >= now :: s[t]
  }

  function ActiveTokens(s: Store, now: int): set<Token> {
    set t | t in s && IsActive(s[t], now)
  }

  function Step(crypto: Crypto, s: Store, e: Event): (Store, Answer) {
    match e.action
    case Generate(key, token, xdr) =>
      if crypto.wellFormed(key) then (s[token := Challenge(key, xdr, Expiry(e.now), false)], Issued(Expiry(e.now)))
      else (s, Refused)
    case Verify(token, tx, later) =>
      var (t, v) := VerifyStep(crypto, s, e.now, token, tx, later);
      (t, Verified(v))
    case CountActive => (s, Active(|ActiveTokens(s, e.now)|))
    case Sweep => (SweepStep(s, e.now), Swept)
  }

  /** The store after the first n events. */
  function After(crypto: Crypto, es: seq<Event>, n: nat): Store
    requires n <= |es|
  {
    if n == 0 then map[] else Step(crypto, After(crypto, es, n - 1), es[n - 1]).0
  }

  function AnswerTo(crypto: Crypto, es: seq<Event>, n: nat): Answer
    requires n < |es|
  {
    Step(crypto, After(crypto, es, n), es[n]).1
  }

  // ----- What is accepted -----

  /** One of the signatures is the key's: its hint is the key's and it verifies against the hash. */
  ghost predicate Signed(crypto: Crypto, key: PublicKey, hash: Hash, sigs: seq<DecoratedSignature>) {
    exists i :: 0 <= i < |sigs| && sigs[i].hint == crypto.hint(key) && crypto.verify(key, hash, sigs[i].signature)
  }

  /** A transaction that parses, inside its time bounds, of two operations at least, the first of which names the
      domain, and signed by the server and by the key. */
  ghost predicate IsSignedChallenge(crypto: Crypto, key: PublicKey, tx: Submitted, later: int) {
    && tx.Transaction? && tx.timeBounds.Some?
    && tx.timeBounds.value.minTime <= later / 1000 <= tx.timeBounds.value.maxTime
    && |tx.operations| >= 2 && tx.operations[0] == ManageData("web_auth_domain")
    && Signed(crypto, crypto.server, tx.hash, tx.signatures) && Signed(crypto, key, tx.hash, tx.signatures)
  }

  /** A verification succeeds exactly for a stored token that is neither used nor expired, with such a transaction of
      its key. It answers the key and marks the token; otherwise the store stays, but for a token found expired. */
  lemma AcceptedExactly(crypto: Crypto, s: Store, now: int, token: Token, tx: Submitted, later: int)
    ensures var (t, v) := VerifyStep(crypto, s, now, token, tx, later);
            && (v.Valid? <==>
                  token in s && !s[token].used && s[token].expiresAt >= now
                  && IsSignedChallenge(crypto, s[token].publicKey, tx, later))
            && (v.Valid? ==> v.publicKey == s[token].publicKey && t == s[token := s[token].(used := true)])
            && (!v.Valid? ==>
                  t == if token in s && !s[token].used && s[token].expiresAt < now then s - {token} else s)
  {
    if token in s {
      PassesExactly(crypto, s[token].publicKey, later, tx);
    }
    hide Examine, IsSignedChallenge;
  }

  lemma PassesExactly(crypto: Crypto, key: PublicKey, later: int, tx: Submitted)
    ensures Examine(crypto, key, later, tx).Valid? <==> IsSignedChallenge(crypto, key, tx, later)
    ensures Examine(crypto, key, later, tx).Valid? ==> Examine(crypto, key, later, tx) == Valid(key)
  {
    if tx.Transaction? {
      SignedIs(crypto, crypto.server, tx.hash, tx.signatures);
      SignedIs(crypto, key, tx.hash, tx.signatures);
    }
    hide HasSignature, Signed;
  }

  lemma SignedIs(crypto: Crypto, key: PublicKey, hash: Hash, sigs: seq<DecoratedSignature>)
    ensures HasSignature(crypto, key, hash, sigs) <==> Signed(crypto, key, hash, sigs)
  {
    if i :| 0 <= i < |sigs| && sigs[i].hint == crypto.hint(key) && crypto.verify(key, hash, sigs[i].signature) {
      assert SignedBy(crypto, key, hash, sigs[i]);
    }
  }

  // ----- One-time use -----

  predicate Generates(e: Event, token: Token) {
    e.action.Generate? && e.action.token == token
  }

  /** Tokens are random and never come up twice. */
  ghost predicate FreshTokens(es: seq<Event>) {
    forall i, j :: 0 <= i < j < |es| && es[i].action.Generate? && es[j].action.Generate? ==>
      es[i].action.token != es[j].action.token
  }

  predicate Accepts(crypto: Crypto, es: seq<Event>, n: nat, token: Token) {
    n < |es| && es[n].action.Verify? && es[n].action.token == token
    && AnswerTo(crypto, es, n).verdict.Valid?
  }

  /** One of the first n events issued this challenge. */
  ghost predicate Origin(es: seq<Event>, n: nat, token: Token, key: PublicKey, expiresAt: int)
    requires n <= |es|
  {
    exists i :: 0 <= i < n && Generates(es[i], token) && es[i].action.publicKey == key && expiresAt == Expiry(es[i].now)
  }

  ghost predicate Known(es: seq<Event>, n: nat, token: Token)
    requires n <= |es|
  {
    exists i :: 0 <= i < n && Generates(es[i], token)
  }

  /** Every stored challenge was issued, and is marked used once it has been accepted. */
  ghost predicate StoreInv(crypto: Crypto, es: seq<Event>, n: nat)
    requires n <= |es|
  {
    var s := After(crypto, es, n);
    && (forall t :: t in s ==> Origin(es, n, t, s[t].publicKey, s[t].expiresAt))
    && (forall t, k :: 0 <= k < n && Accepts(crypto, es, k, t) ==> Known(es, k, t) && (t in s ==> s[t].used))
  }

  /** One step: challenges keep key and expiry, marks stay, and only an unmarked one is accepted and is marked by it. */
  lemma StepFacts(crypto: Crypto, s: Store, e: Event)
    ensures var (t, a) := Step(crypto, s, e);
            && (forall k :: k in t ==>
                  || (Generates(e, k) && t[k].publicKey == e.action.publicKey && t[k].expiresAt == Expiry(e.now))
                  || (k in s && t[k].publicKey == s[k].publicKey && t[k].expiresAt == s[k].expiresAt &&
                     (s[k].used ==> t[k].used)))
            && (e.action.Verify? && a.verdict.Valid? ==>
                  var k := e.action.token;
                  k in s && !s[k].used && e.now <= s[k].expiresAt && a.verdict.publicKey == s[k].publicKey && k in t &&
                    t[k].used)
    ensures e.action.Verify? ==> Step(crypto, s, e).1.Verified?
  {
  }

  lemma {:induction false} StoreInvHolds(crypto: Crypto, es: seq<Event>, n: nat)
    requires FreshTokens(es) && n <= |es|
    ensures StoreInv(crypto, es, n)
  {
    if n > 0 {
      StoreInvHolds(crypto, es, n - 1);
      var s, t := After(crypto, es, n - 1), After(crypto, es, n);
      StepFacts(crypto, s, es[n - 1]);
      assert t == Step(crypto, s, es[n - 1]).0;
      hide Step;
      forall k | k in t ensures Origin(es, n, k, t[k].publicKey, t[k].expiresAt) {
        if !(Generates(es[n - 1], k) && t[k].publicKey == es[n - 1].action.publicKey &&
          t[k].expiresAt == Expiry(es[n - 1].now)) {
          assert Origin(es, n - 1, k, s[k].publicKey, s[k].expiresAt);
        }
      }
      forall k: Token, m: nat | 0 <= m < n && Accepts(crypto, es, m, k)
        ensures Known(es, m, k) && (k in t ==> t[k].used) {
        if m == n - 1 {
          assert Origin(es, m, k, s[k].publicKey, s[k].expiresAt);
        } else {
          assert Known(es, m, k) && !Generates(es[n - 1], k);
        }
      }
    }
  }

  /** With fresh tokens, each token is accepted at most once, only for the key it was issued to, never after the
      expiry it was issued with, and only with a transaction that the key and the server have signed. */
  lemma OneTimeUse(crypto: Crypto, es: seq<Event>, n: nat, token: Token)
    requires FreshTokens(es) && Accepts(crypto, es, n, token)
    ensures exists i :: 0 <= i < n && Generates(es[i], token) && es[n].now <= Expiry(es[i].now)
                        && AnswerTo(crypto, es, n) == Verified(Valid(es[i].action.publicKey))
                        && IsSignedChallenge(crypto, es[i].action.publicKey, es[n].action.tx, es[n].action.later)
    ensures forall m: nat :: Accepts(crypto, es, m, token) ==> m == n
  {
    StoreInvHolds(crypto, es, n);
    var s := After(crypto, es, n);
    StepFacts(crypto, s, es[n]);
    AcceptedExactly(crypto, s, es[n].now, token, es[n].action.tx, es[n].action.later);
    hide Step, Signed;
    assert Origin(es, n, token, s[token].publicKey, s[token].expiresAt);
    forall m: nat | Accepts(crypto, es, m, token) ensures m == n {
      if m > n {
        StoreInvHolds(crypto, es, m);
        StepFacts(crypto, After(crypto, es, m), es[m]);
      }
    }
  }

  // ----- What a token binds -----

  /** A verification depends on its token through key, mark and expiry only: not through the transaction that
      was issued with it. */
  lemma TokenBindsKeyOnly(crypto: Crypto, s: Store, a: Token, u: Store, b: Token, now: int, tx: Submitted, later: int)
    requires a in s && b in u && s[a].(transactionXDR := u[b].transactionXDR) == u[b]
    ensures VerifyStep(crypto, s, now, a, tx, later).1 == VerifyStep(crypto, u, now, b, tx, later).1
  {
    hide Examine;
  }

  /** So a signed transaction, accepted once, is accepted again under every other token of its key that is neither
      used nor expired, for as long as its own time bounds last. */
  lemma AcceptedAgain(crypto: Crypto, s: Store, a: Token, b: Token, tx: Submitted, now1: int, later1: int, now2: int,
                      later2: int)
    requires a != b && a in s && b in s && s[a].publicKey == s[b].publicKey
    requires VerifyStep(crypto, s, now1, a, tx, later1).1.Valid?
    ensures VerifyStep(crypto, VerifyStep(crypto, s, now1, a, tx, later1).0, now2, b, tx, later2).1.Valid? <==>
            && !s[b].used && now2 <= s[b].expiresAt
            && tx.timeBounds.value.minTime <= Seconds(later2) <= tx.timeBounds.value.maxTime
  {
    AcceptedExactly(crypto, s, now1, a, tx, later1);
    var t := VerifyStep(crypto, s, now1, a, tx, later1).0;
    assert b in t && t[b] == s[b];
    AcceptedExactly(crypto, t, now2, b, tx, later2);
    hide HasSignature, Signed;
  }

  /** From the empty store: a challenge answered once answers the next one too. */
  lemma AcceptedUnderNextToken(crypto: Crypto, key: PublicKey, a: Token, b: Token, xdrA: string, xdrB: string,
                               now: int, tx: Submitted)
    requires a != b && crypto.wellFormed(key) && IsSignedChallenge(crypto, key, tx, now)
    ensures var es := [Event(now, Generate(key, a, xdrA)), Event(now, Verify(a, tx, now)),
                       Event(now, Generate(key, b, xdrB)), Event(now, Verify(b, tx, now))];
            FreshTokens(es) && Accepts(crypto, es, 1, a) && Accepts(crypto, es, 3, b)
  {
    PassesExactly(crypto, key, now, tx);
    hide Examine, IsSignedChallenge;
    var es := [Event(now, Generate(key, a, xdrA)), Event(now, Verify(a, tx, now)),
               Event(now, Generate(key, b, xdrB)), Event(now, Verify(b, tx, now))];
    assert After(crypto, es, 0) == map[];
    var s1 := After(crypto, es, 1);
    assert s1 == map[a := Challenge(key, xdrA, Expiry(now), false)];
    assert Expiry(now) >= now;
    var s3 := After(crypto, es, 3);
    assert s3[b] == Challenge(key, xdrB, Expiry(now), false);
  }

  // ----- Sweeping changes nothing that callers see -----

  /** What a caller can tell from an answer: the reason for a refusal aside. */
  datatype Seen = SeenIssue(expiresAt: int) | SeenRefusal | SeenValid(publicKey: PublicKey) | SeenInvalid
    | SeenActive(count: nat)

  function See(a: Answer): Seen {
    match a
    case Issued(t) => SeenIssue(t)
    case Refused => SeenRefusal
    case Verified(Valid(k)) => SeenValid(k)
    case Verified(Invalid(_)) => SeenInvalid
    case Active(n) => SeenActive(n)
    case Swept => SeenRefusal
  }

  /** What callers see of a run, sweeps leaving no trace. */
  function Transcript(crypto: Crypto, s: Store, es: seq<Event>): seq<Seen>
    decreases |es|
  {
    if es == [] then []
    else
      var (t, a) := Step(crypto, s, es[0]);
      if es[0].action.Sweep? then Transcript(crypto, t, es[1..]) else [See(a)] + Transcript(crypto, t, es[1..])
  }

  function WithoutSweeps(es: seq<Event>): seq<Event> {
    if es == [] then []
    else if es[0].action.Sweep? then WithoutSweeps(es[1..])
    else [es[0]] + WithoutSweeps(es[1..])
  }

  predicate ClockRuns(es: seq<Event>, from: int) {
    es == [] || (from <= es[0].now && ClockRuns(es[1..], es[0].now))
  }

  /** The swept store has the unswept one's challenges, short of some that have expired. */
  ghost predicate Sweptness(swept: Store, unswept: Store, now: int) {
    && (forall t :: t in swept ==> t in unswept && swept[t] == unswept[t])
    && (forall t :: t in unswept && t !in swept ==> unswept[t].expiresAt < now)
  }

  lemma StepsAgree(crypto: Crypto, s: Store, u: Store, e: Event)
    requires Sweptness(s, u, e.now) && !e.action.Sweep?
    ensures Sweptness(Step(crypto, s, e).0, Step(crypto, u, e).0, e.now)
    ensures See(Step(crypto, s, e).1) == See(Step(crypto, u, e).1)
  {
    if e.action.CountActive? {
      assert ActiveTokens(s, e.now) == ActiveTokens(u, e.now);
    }
  }

  /** With a clock that never runs back, sweeps at any moments change neither which verifications succeed,
      and for whom, nor any count of active challenges. */
  lemma {:induction false} SweepsAreInvisible(crypto: Crypto, s: Store, u: Store, es: seq<Event>, now: int)
    requires Sweptness(s, u, now) && ClockRuns(es, now)
    ensures Transcript(crypto, s, es) == Transcript(crypto, u, WithoutSweeps(es))
    decreases |es|
  {
    if es != [] {
      var e := es[0];
      if e.action.Sweep? {
        SweepsAreInvisible(crypto, SweepStep(s, e.now), u, es[1..], e.now);
      } else {
        StepsAgree(crypto, s, u, e);
        SweepsAreInvisible(crypto, Step(crypto, s, e).0, Step(crypto, u, e).0, es[1..], e.now);
        assert WithoutSweeps(es)[1..] == WithoutSweeps(es[1..]);
      }
    }
  }

  // ----- The module-level store -----

  class ChallengeStore {
    const crypto: Crypto
    var store: Store

    constructor (crypto: Crypto)
      ensures this.crypto == crypto && store == map[]
    {
      this.crypto := crypto;
      store := map[];
    }

    method GenerateChallenge(now: int, clientPublicKey: PublicKey, token: Token, xdr: string) returns (r: Option<int>)
      modifies this
      ensures (store, match r case Some(t) => Issued(t) case None => Refused)
              == Step(crypto, old(store), Event(now, Generate(clientPublicKey, token, xdr)))
      ensures r.Some? <==> crypto.wellFormed(clientPublicKey)
      ensures r.Some? ==> r.value == (now / 1000 + 300) * 1000
      ensures store == if r.None? then old(store)
                       else old(store)[token := Challenge(clientPublicKey, xdr, r.value, false)]
    {
      if !crypto.wellFormed(clientPublicKey) {
        return None;
      }
      var nowSec := Seconds(now);
      var maxTime := nowSec + CHALLENGE_WINDOW_SECONDS;
      var expiresAt := maxTime * 1000;
      store := store[token := Challenge(clientPublicKey, xdr, expiresAt, false)];
      return Some(expiresAt);
    }

    method VerifyChallenge(now: int, token: Token, tx: Submitted, later: int) returns (v: Verdict)
      modifies this
      ensures (store, Verified(v)) == Step(crypto, old(store), Event(now, Verify(token, tx, later)))
      ensures v.Valid? <==>
                && token in old(store) && !old(store)[token].used && old(store)[token].expiresAt >= now
                && IsSignedChallenge(crypto, old(store)[token].publicKey, tx, later)
      ensures v.Valid? ==> v.publicKey == old(store)[token].publicKey && token in store && store[token].used
    {
      AcceptedExactly(crypto, store, now, token, tx, later);
      hide Signed;
      if token !in store {
        return Invalid(NotFound);
      }
      var stored := store[token];
      if stored.used {
        return Invalid(AlreadyUsed);
      }
      if stored.expiresAt < now {
        store := store - {token};
        return Invalid(Expired);
      }
      if tx.Unparseable? {
        return Invalid(NotParsed);
      }
      if tx.timeBounds.None? {
        return Invalid(NoTimeBounds);
      }
      var nowSec := Seconds(later);
      if nowSec < tx.timeBounds.value.minTime {
        return Invalid(NotYetValid);
      }
      if nowSec > tx.timeBounds.value.maxTime {
        return Invalid(BoundsExpired);
      }
      if |tx.operations| < 2 {
        return Invalid(TooFewOperations);
      }
      var domainOp := tx.operations[0];
      if !domainOp.ManageData? || domainOp.name != "web_auth_domain" {
        return Invalid(WrongDomainOperation);
      }
      var hasServerSig, hasClientSig := CheckSignatures(crypto, stored.publicKey, tx.hash, tx.signatures);
      if !hasServerSig {
        return Invalid(ServerSignature);
      }
      if !hasClientSig {
        return Invalid(ClientSignature);
      }
      store := store[token := stored.(used := true)];
      return Valid(stored.publicKey);
    }

    /** The periodic sweep: visits every entry and drops the expired ones. */
    method SweepExpired(now: int)
      modifies this
      ensures (store, Swept) == Step(crypto, old(store), Event(now, Sweep))
      ensures forall t :: t in store <==> t in old(store) && old(store)[t].expiresAt >= now
      ensures forall t :: t in store ==> store[t] == old(store)[t]
    {
      var tokens := store.Keys;
      while tokens != {}
        invariant tokens <= store.Keys <= old(store).Keys
        invariant forall t :: t in store ==> store[t] == old(store)[t] && (t in tokens || store[t].expiresAt >= now)
        invariant forall t :: t in old(store) && t !in store ==> old(store)[t].expiresAt < now
        decreases |tokens|
      {
        var token :| token in tokens;
        tokens := tokens - {token};
        if store[token].expiresAt < now {
          store := store - {token};
        }
      }
      assert store == SweepStep(old(store), now);
    }

    method GetActiveChallengeCount(now: int) returns (count: nat)
      ensures count == |ActiveTokens(store, now)|
      ensures count == |set t | t in store && !store[t].used && store[t].expiresAt > now|
    {
      count := 0;
      var tokens := store.Keys;
      ghost var seen: set<Token> := {};
      while tokens != {}
        invariant tokens <= store.Keys && seen == store.Keys - tokens
        invariant count == |set t | t in seen && IsActive(store[t], now)|
        decreases |tokens|
      {
        var token :| token in tokens;
        tokens := tokens - {token};
        ghost var before := set t | t in seen && IsActive(store[t], now);
        seen := seen + {token};
        if !store[token].used && store[token].expiresAt > now {
          assert (set t | t in seen && IsActive(store[t], now)) == before + {token};
          count := count + 1;
        } else {
          assert (set t | t in seen && IsActive(store[t], now)) == before;
        }
      }
      assert ActiveTokens(store, now) == set t | t in seen && IsActive(store[t], now);
      assert ActiveTokens(store, now) == set t | t in store && !store[t].used && store[t].expiresAt > now;
    }
  }
}
