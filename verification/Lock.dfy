/** The distributed lock: a key store with expiry, clients that retry, and a network that loses messages. */
module Lock {
  import opened Wrappers

  type Key = string
  type Value = string
  type ClientId = nat

  // ----- The key store -----

  datatype Entry = Entry(value: Value, expiresAt: nat)

  datatype Store = Store(now: nat, keys: map<Key, Entry>) {
    predicate Live(key: Key) {
      key in keys && now < keys[key].expiresAt
    }
  }

  datatype Reply = OK | Nil | Rejected

  /** SET key value NX PX ttl; a ttl of zero is rejected. */
  function SetNxPx(s: Store, key: Key, value: Value, ttl: nat): (Store, Reply) {
    if ttl == 0 then (s, Rejected)
    else if s.Live(key) then (s, Nil)
    else (s.(keys := s.keys[key := Entry(value, s.now + ttl)]), OK)
  }

  /** The release script: delete the key if it still holds the given value. */
  function CompareAndDelete(s: Store, key: Key, value: Value): (Store, nat) {
    if s.Live(key) && s.keys[key].value == value then (s.(keys := s.keys - {key}), 1) else (s, 0)
  }

  // ----- The system -----

  /** Where a client stands. `until` is the end of its claim by the store's clock. */
  datatype Client =
    | Idle
    | Trying(key: Key, value: Value, ttl: nat, retries: nat, attempt: nat)
    | Holding(key: Key, value: Value, until: nat)

  /** A stretch of time in which the store granted a key to a value. */
  datatype Hold = Hold(key: Key, value: Value, start: nat, end: nat)

  datatype Request = Request(key: Key, ttl: nat)

  datatype System = System(store: Store, clients: map<ClientId, Client>, issued: map<Value, Request>,
                           holds: seq<Hold>) {
    function At(c: ClientId): Client {
      if c in clients then clients[c] else Idle
    }
  }

  datatype Fate = Delivered | RequestLost | ReplyLost

  datatype Event =
    | Tick(ms: nat)
    | Begin(client: ClientId, key: Key, value: Value, ttl: nat, retries: nat)  // `acquireLock` with a fresh value
    | Attempt(client: ClientId, fate: Fate)
    | LateSet(value: Value)                     // a request given up as lost reaches the store after all
    | Release(client: ClientId, fate: Fate)
    | LateRelease(value: Value)                 // likewise, of a client that no longer holds the value

  const INIT := System(Store(0, map[]), map[], map[], [])

  /** Ends every hold on the key that would still last. */
  function Cut(holds: seq<Hold>, key: Key, now: nat): (r: seq<Hold>)
    ensures |r| == |holds|
    ensures forall i :: 0 <= i < |r| ==>
              r[i] == if holds[i].key == key && holds[i].end > now then holds[i].(end := now) else holds[i]
  {
    seq(|holds|, i requires 0 <= i < |holds| =>
      if holds[i].key == key && holds[i].end > now then holds[i].(end := now) else holds[i])
  }

  function ServeSet(s: System, key: Key, value: Value, ttl: nat): (System, Reply) {
    var (store, reply) := SetNxPx(s.store, key, value, ttl);
    var holds := if reply == OK then s.holds + [Hold(key, value, s.store.now, s.store.now + ttl)] else s.holds;
    (s.(store := store, holds := holds), reply)
  }

  function ServeRelease(s: System, key: Key, value: Value): System {
    var (store, deleted) := CompareAndDelete(s.store, key, value);
    s.(store := store, holds := if deleted == 1 then Cut(s.holds, key, s.store.now) else s.holds)
  }

  /** After an attempt that did not get the lock: try again, or give up when the retries are used up. */
  function Next(c: Client): Client
    requires c.Trying?
  {
    if c.attempt < c.retries then c.(attempt := c.attempt + 1) else Idle
  }

  function Step(s: System, e: Event): System {
    match e
    case Tick(ms) => s.(store := s.store.(now := s.store.now + ms))
    case Begin(c, key, value, ttl, retries) =>
      if s.At(c).Idle? && value !in s.issued then
        s.(clients := s.clients[c := Trying(key, value, ttl, retries, 0)],
           issued := s.issued[value := Request(key, ttl)])
      else s
    case Attempt(c, fate) =>
      var me := s.At(c);
      if !me.Trying? then s
      else if fate == RequestLost then s.(clients := s.clients[c := Next(me)])
      else
        var (t, reply) := ServeSet(s, me.key, me.value, me.ttl);
        if fate == Delivered && reply == OK then
          t.(clients := t.clients[c := Holding(me.key, me.value, s.store.now + me.ttl)])
        else t.(clients := t.clients[c := Next(me)])
    case LateSet(value) =>
      if value in s.issued then ServeSet(s, s.issued[value].key, value, s.issued[value].ttl).0 else s
    case Release(c, fate) =>
      var me := s.At(c);
      if !me.Holding? then s
      else
        var t := if fate == RequestLost then s else ServeRelease(s, me.key, me.value);
        t.(clients := t.clients[c := Idle])
    case LateRelease(value) =>
      if value in s.issued && (forall c :: c in s.clients && s.clients[c].Holding? ==> s.clients[c].value != value)
      then ServeRelease(s, s.issued[value].key, value) else s
  }

  function Run(s: System, es: seq<Event>): System
    decreases |es|
  {
    if es == [] then s else Step(Run(s, es[..|es| - 1]), es[|es| - 1])
  }

  // ----- What every run keeps -----

  /** A claim that has not run out is backed by the store. */
  ghost predicate Backed(s: System, c: ClientId) {
    var me := s.At(c);
    me.Holding? && s.store.now < me.until ==> s.store.Live(me.key) && s.store.keys[me.key] == Entry(me.value, me.until)
  }

  ghost predicate OwnValue(s: System, c: ClientId) {
    var me := s.At(c);
    && (me.Trying? ==> me.value in s.issued && s.issued[me.value] == Request(me.key, me.ttl))
    && (me.Holding? ==> me.value in s.issued && s.issued[me.value].key == me.key)
  }

  ghost predicate DistinctValues(s: System) {
    forall c, d :: c != d && !s.At(c).Idle? && !s.At(d).Idle? ==> s.At(c).value != s.At(d).value
  }

  /** A hold that still lasts is the store's entry for its key. */
  ghost predicate HoldBacked(s: System, h: Hold) {
    h.start <= s.store.now
    && (s.store.now < h.end ==> s.store.Live(h.key) && s.store.keys[h.key] == Entry(h.value, h.end))
  }

  ghost predicate Disjoint(g: Hold, h: Hold) {
    g.key == h.key ==> g.end <= h.start || h.end <= g.start
  }

  ghost predicate HoldsInOrder(holds: seq<Hold>) {
    forall i, j :: 0 <= i < j < |holds| && holds[i].key == holds[j].key ==> holds[i].end <= holds[j].start
  }

  ghost predicate Inv(s: System) {
    && (forall c :: Backed(s, c))
    && (forall c :: OwnValue(s, c))
    && DistinctValues(s)
    && (forall i :: 0 <= i < |s.holds| ==> HoldBacked(s, s.holds[i]))
    && HoldsInOrder(s.holds)
  }

  lemma ServeSetKeeps(s: System, key: Key, value: Value, ttl: nat)
    requires Inv(s)
    ensures Inv(ServeSet(s, key, value, ttl).0)
  {
    var (t, reply) := ServeSet(s, key, value, ttl);
    if reply == OK {
      forall c ensures Backed(t, c) && OwnValue(t, c) {
        assert Backed(s, c) && OwnValue(s, c) && t.At(c) == s.At(c);
      }
      assert forall c :: t.At(c) == s.At(c);
      forall i | 0 <= i < |t.holds| ensures HoldBacked(t, t.holds[i]) {
        if i < |s.holds| {
          assert HoldBacked(s, s.holds[i]);
        }
      }
    }
  }

  lemma ServeReleaseKeeps(s: System, key: Key, value: Value)
    requires Inv(s) && value in s.issued && s.issued[value].key == key
    requires forall c :: s.At(c).Holding? ==> s.At(c).value != value
    ensures Inv(ServeRelease(s, key, value))
  {
    var t := ServeRelease(s, key, value);
    assert forall c :: t.At(c) == s.At(c);
    forall c ensures Backed(t, c) && OwnValue(t, c) {
      assert Backed(s, c) && OwnValue(s, c);
    }
    forall i | 0 <= i < |t.holds| ensures HoldBacked(t, t.holds[i]) {
      assert HoldBacked(s, s.holds[i]);
    }
  }

  /** Changing where one client stands, to nothing or to another attempt under its own value. */
  lemma ClientMoves(s: System, c: ClientId, to: Client)
    requires Inv(s) && !to.Holding?
    requires to.Trying? ==> s.At(c).Trying? && to == s.At(c).(attempt := to.attempt)
    ensures Inv(s.(clients := s.clients[c := to]))
  {
    var t := s.(clients := s.clients[c := to]);
    assert forall d :: t.At(d) == if d == c then to else s.At(d);
    forall d ensures Backed(t, d) && OwnValue(t, d) {
      assert Backed(s, d) && OwnValue(s, d);
    }
    forall i | 0 <= i < |t.holds| ensures HoldBacked(t, t.holds[i]) {
      assert HoldBacked(s, s.holds[i]);
    }
  }

  lemma BeginKeeps(s: System, c: ClientId, key: Key, value: Value, ttl: nat, retries: nat)
    requires Inv(s)
    ensures Inv(Step(s, Begin(c, key, value, ttl, retries)))
  {
    var t := Step(s, Begin(c, key, value, ttl, retries));
    if t != s {
      assert forall d :: t.At(d) == if d == c then Trying(key, value, ttl, retries, 0) else s.At(d);
      forall d ensures Backed(t, d) && OwnValue(t, d) {
        assert Backed(s, d) && OwnValue(s, d);
      }
      forall d | !s.At(d).Idle? ensures s.At(d).value != value {
        assert OwnValue(s, d);
      }
      forall i | 0 <= i < |t.holds| ensures HoldBacked(t, t.holds[i]) {
        assert HoldBacked(s, s.holds[i]);
      }
    }
  }

  /** A delivered grant: the client's new claim is the store's new entry. */
  lemma GrantKeeps(s: System, c: ClientId)
    requires Inv(s) && s.At(c).Trying?
    requires ServeSet(s, s.At(c).key, s.At(c).value, s.At(c).ttl).1 == OK
    ensures Inv(Step(s, Attempt(c, Delivered)))
  {
    var me := s.At(c);
    ServeSetKeeps(s, me.key, me.value, me.ttl);
    var t := ServeSet(s, me.key, me.value, me.ttl).0;
    var u := Step(s, Attempt(c, Delivered));
    var to := Holding(me.key, me.value, s.store.now + me.ttl);
    assert u == t.(clients := t.clients[c := to]);
    assert forall d :: u.At(d) == if d == c then to else t.At(d);
    assert OwnValue(t, c);
    forall d ensures Backed(u, d) && OwnValue(u, d) {
      assert Backed(t, d) && OwnValue(t, d);
    }
    forall i | 0 <= i < |u.holds| ensures HoldBacked(u, u.holds[i]) {
      assert HoldBacked(t, t.holds[i]);
    }
  }

  lemma StepKeepsInv(s: System, e: Event)
    requires Inv(s)
    ensures Inv(Step(s, e))
  {
    match e {
      case Tick(ms) =>
        var t := Step(s, e);
        forall c ensures Backed(t, c) && OwnValue(t, c) {
          assert Backed(s, c) && OwnValue(s, c) && t.At(c) == s.At(c);
        }
        assert forall c :: t.At(c) == s.At(c);
        forall i | 0 <= i < |t.holds| ensures HoldBacked(t, t.holds[i]) {
          assert HoldBacked(s, s.holds[i]);
        }
      case Begin(c, key, value, ttl, retries) => BeginKeeps(s, c, key, value, ttl, retries);
      case Attempt(c, fate) =>
        var me := s.At(c);
        if me.Trying? {
          if fate == RequestLost {
            ClientMoves(s, c, Next(me));
          } else {
            var (t, reply) := ServeSet(s, me.key, me.value, me.ttl);
            if fate == Delivered && reply == OK {
              GrantKeeps(s, c);
            } else {
              ServeSetKeeps(s, me.key, me.value, me.ttl);
              ClientMoves(t, c, Next(me));
            }
          }
        }
      case LateSet(value) =>
        if value in s.issued {
          ServeSetKeeps(s, s.issued[value].key, value, s.issued[value].ttl);
        }
      case Release(c, fate) =>
        var me := s.At(c);
        if me.Holding? {
          ClientMoves(s, c, Idle);
          if fate != RequestLost {
            var t := s.(clients := s.clients[c := Idle]);
            assert forall d :: t.At(d) == if d == c then Idle else s.At(d);
            assert OwnValue(s, c);
            ServeReleaseKeeps(t, me.key, me.value);
          }
        }
      case LateRelease(value) =>
        if value in s.issued && (forall c :: c in s.clients && s.clients[c].Holding? ==> s.clients[c].value != value) {
          ServeReleaseKeeps(s, s.issued[value].key, value);
        }
    }
  }

  lemma {:induction false} RunKeepsInv(es: seq<Event>)
    ensures Inv(Run(INIT, es))
    decreases |es|
  {
    if es != [] {
      RunKeepsInv(es[..|es| - 1]);
      StepKeepsInv(Run(INIT, es[..|es| - 1]), es[|es| - 1]);
    }
  }

  /** After any interleaving of acquisitions, retries, lost and late messages, releases and expiries:
      no two clients hold unexpired claims on one key. */
  lemma MutualExclusion(es: seq<Event>, c: ClientId, d: ClientId)
    requires var s := Run(INIT, es);
             && s.At(c).Holding? && s.store.now < s.At(c).until
             && s.At(d).Holding? && s.store.now < s.At(d).until
             && s.At(c).key == s.At(d).key
    ensures c == d
  {
    RunKeepsInv(es);
    var s := Run(INIT, es);
    assert Backed(s, c) && Backed(s, d);
  }

  /** The intervals in which the store granted a key, each from its SET to its release or expiry, never overlap. */
  lemma HoldsNeverOverlap(es: seq<Event>, i: nat, j: nat)
    requires var holds := Run(INIT, es).holds; i < |holds| && j < |holds| && i != j
    ensures var holds := Run(INIT, es).holds; Disjoint(holds[i], holds[j])
  {
    RunKeepsInv(es);
  }

  /** While a claim lasts, nothing but its own release ends it: not the retries, releases or late messages of others. */
  lemma ClaimLasts(es: seq<Event>, e: Event, c: ClientId)
    requires Run(INIT, es).At(c).Holding?
    requires !(e.Release? && e.client == c)
    ensures var s, t := Run(INIT, es), Step(Run(INIT, es), e);
            && t.At(c) == s.At(c)
            && (t.store.now < s.At(c).until ==>
                  t.store.Live(s.At(c).key) && t.store.keys[s.At(c).key] == Entry(s.At(c).value, s.At(c).until))
  {
    RunKeepsInv(es);
    StepKeepsInv(Run(INIT, es), e);
    assert Backed(Step(Run(INIT, es), e), c);
  }

  /** The value a release event carries. */
  function ReleasedValue(s: System, e: Event): Option<Value> {
    match e
    case Release(c, _) => if s.At(c).Holding? then Some(s.At(c).value) else None
    case LateRelease(value) => Some(value)
    case _ => None
  }

  /** A release with a stale value, because its lock expired and another's followed, removes no entry
      and shortens no hold of the later owner. */
  lemma StaleReleaseIsHarmless(es: seq<Event>, e: Event, key: Key)
    requires e.Release? || e.LateRelease?
    requires var s := Run(INIT, es); s.store.Live(key) && Some(s.store.keys[key].value) != ReleasedValue(s, e)
    ensures var s, t := Run(INIT, es), Step(Run(INIT, es), e);
            && t.store.Live(key) && t.store.keys[key] == s.store.keys[key]
            && |t.holds| == |s.holds|
            && forall i :: 0 <= i < |s.holds| && Some(s.holds[i].value) != ReleasedValue(s, e) ==>
               t.holds[i] == s.holds[i]
  {
    RunKeepsInv(es);
    var s := Run(INIT, es);
    assert forall i :: 0 <= i < |s.holds| ==> HoldBacked(s, s.holds[i]);
  }

  // ----- Release and what comes after -----

  /** Whose request gets the lock: an attempt ends in a claim exactly if it is delivered, its ttl is not zero, and no
      entry stands under the key. The claim is then the store's new entry. */
  lemma GrantedExactly(s: System, c: ClientId, fate: Fate)
    requires s.At(c).Trying?
    ensures var me, t, keys, now := s.At(c), Step(s, Attempt(c, fate)), s.store.keys, s.store.now;
            && (t.At(c).Holding? <==>
                  fate == Delivered && me.ttl > 0 && !(me.key in keys && now < keys[me.key].expiresAt))
            && (t.At(c).Holding? ==>
                  t.At(c) == Holding(me.key, me.value, now + me.ttl)
                  && t.store.keys == keys[me.key := Entry(me.value, now + me.ttl)])
  {
  }

  /** The event asks the store for this key. */
  predicate Asks(s: System, e: Event, key: Key) {
    || (e.Attempt? && s.At(e.client).Trying? && s.At(e.client).key == key && e.fate != RequestLost)
    || (e.LateSet? && e.value in s.issued && s.issued[e.value].key == key)
  }

  predicate NoneAsks(s: System, es: seq<Event>, key: Key)
    decreases |es|
  {
    es == [] || (NoneAsks(s, es[..|es| - 1], key) && !Asks(Run(s, es[..|es| - 1]), es[|es| - 1], key))
  }

  /** A free key stays free until someone asks for it. */
  lemma {:induction false} StaysFree(s: System, es: seq<Event>, key: Key)
    requires NoneAsks(s, es, key) && key !in s.store.keys
    ensures key !in Run(s, es).store.keys
    decreases |es|
  {
    if es != [] {
      StaysFree(s, es[..|es| - 1], key);
      hide Run, NoneAsks;
    }
  }

  /** A release that reaches the store, by a client whose claim lasts, frees the key and leaves every other entry. */
  lemma ReleaseFrees(es: seq<Event>, c: ClientId, fate: Fate)
    requires fate != RequestLost
    requires var s := Run(INIT, es); s.At(c).Holding? && s.store.now < s.At(c).until
    ensures var s, t := Run(INIT, es), Step(Run(INIT, es), Release(c, fate));
            && s.At(c).key !in t.store.keys && t.At(c) == Idle
            && forall k :: k != s.At(c).key ==>
                 (k in t.store.keys <==> k in s.store.keys)
                 && (k in t.store.keys ==> t.store.keys[k] == s.store.keys[k])
  {
    RunKeepsInv(es);
    assert Backed(Run(INIT, es), c);
  }

  /** And the next one who asks gets it: whatever happens meanwhile, the first delivered attempt on the key with a ttl
      that is not zero ends in a claim. */
  lemma NextGetsIt(es: seq<Event>, c: ClientId, fate: Fate, others: seq<Event>, d: ClientId)
    requires fate != RequestLost
    requires var s := Run(INIT, es);
             && s.At(c).Holding? && s.store.now < s.At(c).until
             && NoneAsks(Step(s, Release(c, fate)), others, s.At(c).key)
             && var me := Run(Step(s, Release(c, fate)), others).At(d);
                me.Trying? && me.key == s.At(c).key && me.ttl > 0
    ensures var u := Run(Step(Run(INIT, es), Release(c, fate)), others);
            Step(u, Attempt(d, Delivered)).At(d) == Holding(u.At(d).key, u.At(d).value, u.store.now + u.At(d).ttl)
  {
    ReleaseFrees(es, c, fate);
    hide Step;
    StaysFree(Step(Run(INIT, es), Release(c, fate)), others, Run(INIT, es).At(c).key);
    GrantedExactly(Run(Step(Run(INIT, es), Release(c, fate)), others), d, Delivered);
  }

  // ----- The code: what a client does between its awaits -----

  function LockKey(resource: string): Key {
    "lock:" + resource
  }

  predicate Involves(e: Event, c: ClientId) {
    (e.Begin? || e.Attempt? || e.Release?) && e.client == c
  }

  /** None of these events is an action of the client. */
  predicate OfOthers(es: seq<Event>, c: ClientId) {
    forall i :: 0 <= i < |es| ==> !Involves(es[i], c)
  }

  lemma OtherLeaves(s: System, e: Event, c: ClientId)
    requires !Involves(e, c)
    ensures Step(s, e).At(c) == s.At(c)
  {
  }

  lemma {:induction false} OthersLeave(s: System, es: seq<Event>, c: ClientId)
    requires OfOthers(es, c)
    ensures Run(s, es).At(c) == s.At(c)
    decreases |es|
  {
    hide Step, Involves;
    if es != [] {
      OthersLeave(s, es[..|es| - 1], c);
      OtherLeaves(Run(s, es[..|es| - 1]), es[|es| - 1], c);
    }
  }

  lemma {:induction false} RunConcat(s: System, a: seq<Event>, b: seq<Event>)
    ensures Run(s, a + b) == Run(Run(s, a), b)
    decreases |b|
  {
    if b == [] {
      assert a + b == a;
    } else {
      var n := |b| - 1;
      assert (a + b)[..|a + b| - 1] == a + b[..n];
      RunConcat(s, a, b[..n]);
    }
  }

  lemma RunSnoc(s: System, es: seq<Event>, e: Event)
    ensures Run(s, es + [e]) == Step(Run(s, es), e)
  {
    assert (es + [e])[..|es|] == es;
  }

  /** The entry under this key has not run out and is this value's. */
  predicate Stands(keys: map<Key, Entry>, now: nat, key: Key, value: Value) {
    key in keys && now < keys[key].expiresAt && keys[key].value == value
  }

  class World {
    var now: nat
    var keys: map<Key, Entry>
    var clients: map<ClientId, Client>
    var issued: map<Value, Request>
    var holds: seq<Hold>

    function View(): System reads this {
      System(Store(now, keys), clients, issued, holds)
    }

    /** What everyone else does while this client waits. */
    method Others(es: seq<Event>)
      modifies this
      ensures View() == Run(old(View()), es)
    {
      var s := Run(View(), es);
      now, keys, clients, issued, holds := s.store.now, s.store.keys, s.clients, s.issued, s.holds;
    }

    method Set(key: Key, value: Value, ttl: nat) returns (reply: Reply)
      modifies this`keys, this`holds
      ensures (View(), reply) == ServeSet(old(View()), key, value, ttl)
      ensures reply == OK <==> ttl > 0 && !(key in old(keys) && now < old(keys)[key].expiresAt)
      ensures keys == if reply == OK then old(keys)[key := Entry(value, now + ttl)] else old(keys)
    {
      if ttl == 0 {
        return Rejected;
      }
      if key in keys && now < keys[key].expiresAt {
        return Nil;
      }
      keys := keys[key := Entry(value, now + ttl)];
      holds := holds + [Hold(key, value, now, now + ttl)];
      return OK;
    }

    method Eval(key: Key, value: Value) returns (deleted: nat)
      modifies this`keys, this`holds
      ensures View() == ServeRelease(old(View()), key, value)
      ensures deleted == if Stands(old(keys), now, key, value) then 1 else 0
      ensures keys == if deleted == 1 then old(keys) - {key} else old(keys)
    {
      if key in keys && now < keys[key].expiresAt && keys[key].value == value {
        keys := keys - {key};
        holds := Cut(holds, key, now);
        return 1;
      }
      return 0;
    }

    /** Enters the retry loop with a fresh lock value. */
    method StartTrying(c: ClientId, key: Key, value: Value, ttl: nat, retries: nat)
      requires View().At(c).Idle? && value !in issued
      modifies this`clients, this`issued
      ensures View() == Step(old(View()), Begin(c, key, value, ttl, retries))
      ensures View().At(c) == Trying(key, value, ttl, retries, 0)
    {
      clients := clients[c := Trying(key, value, ttl, retries, 0)];
      issued := issued[value := Request(key, ttl)];
    }

    /** One turn of the retry loop: what the others do while the client waits, then its request, and where
        the answer or exception leaves it. */
    method TryOnce(c: ClientId, others: seq<Event>, fate: Fate) returns (got: bool, failed: bool)
      requires View().At(c).Trying? && OfOthers(others, c)
      modifies this
      ensures View() == Run(old(View()), others + [Attempt(c, fate)])
      ensures var me := old(View()).At(c);
              View().At(c) == (if got then Holding(me.key, me.value, now + me.ttl) else Next(me))
              && (!got ==> (failed <==> fate != Delivered || me.ttl == 0))
    {
      OthersLeave(View(), others, c);
      RunSnoc(View(), others, Attempt(c, fate));
      Others(others);
      hide Run, OfOthers;
      var me := clients[c];
      failed := true;
      if fate != RequestLost {
        var reply := Set(me.key, me.value, me.ttl);
        if fate == Delivered && reply == OK {
          clients := clients[c := Holding(me.key, me.value, now + me.ttl)];
          return true, false;
        }
        failed := fate == ReplyLost || reply == Rejected;
      }
      clients := clients[c := Next(me)];
      return false, failed;
    }

    /** `acquireLock`, with any fate for each of its requests and any behaviour of the others before each
        attempt: it returns the value exactly when it ends holding the lock, `None` or an exception when
        every attempt found it taken or failed, and it makes at most retries + 1 attempts. */
    method AcquireLock(c: ClientId, resource: string, lockValue: Value, ttl: nat, retries: nat,
                       fates: seq<Fate>, others: seq<seq<Event>>)
        returns (r: Option<Value>, threw: bool, ghost attempts: nat)
      requires View().At(c).Idle? && lockValue !in issued
      requires |fates| == |others| == retries + 1 && forall n :: 0 <= n < |others| ==> OfOthers(others[n], c)
      modifies this
      ensures attempts <= retries + 1
      ensures var begin := Begin(c, LockKey(resource), lockValue, ttl, retries);
              View() == AfterAttempts(old(View()), c, begin, fates, others, attempts)
      ensures r == Some(lockValue) ==> View().At(c) == Holding(LockKey(resource), lockValue, now + ttl) && !threw
      ensures r != Some(lockValue) ==> r == None && View().At(c) == Idle
      ensures 1 <= attempts && (r == None ==> attempts == retries + 1)
      ensures threw <==> r == None && (fates[retries] != Delivered || ttl == 0)
    {
      var lockKey := LockKey(resource);
      ghost var start, begin := View(), Begin(c, lockKey, lockValue, ttl, retries);
      StartTrying(c, lockKey, lockValue, ttl, retries);
      attempts := 0;
      hide Run, Step, LockKey, OfOthers, AfterAttempts, Involves;
      for attempt := 0 to retries + 1
        invariant attempts == attempt && View() == AfterAttempts(start, c, begin, fates, others, attempt)
        invariant attempt > retries ==> fates[retries] == Delivered && ttl != 0
        invariant View().At(c) == if attempt <= retries then Trying(lockKey, lockValue, ttl, retries, attempt) else Idle
      {
        attempts := attempts + 1;
        var got, failed := TryOnce(c, others[attempt], fates[attempt]);
        if got {
          return Some(lockValue), false, attempts;
        }
        if failed && attempt == retries {
          return None, true, attempts;
        }
      }
      return None, false, attempts;
    }

    /** `releaseLock`, with any value: true exactly when the store held the value under this resource and the
        answer arrived. For a client that holds the value it is the release step; for a value given out for this
        resource that no client holds, it is a stale release. */
    method ReleaseLock(c: ClientId, resource: string, lockValue: Value, fate: Fate) returns (released: bool)
      modifies this`keys, this`holds, this`clients
      ensures released <==> lockValue != "" && fate == Delivered
                            && Stands(old(keys), now, LockKey(resource), lockValue)
      ensures keys == if lockValue != "" && fate != RequestLost && Stands(old(keys), now, LockKey(resource), lockValue)
                      then old(keys) - {LockKey(resource)} else old(keys)
      ensures released ==>
                && LockKey(resource) !in keys
                && forall k :: k != LockKey(resource) ==>
                     (k in keys <==> k in old(keys)) && (k in keys ==> keys[k] == old(keys)[k])
      ensures var served := if lockValue == "" || fate == RequestLost then old(View())
              else ServeRelease(old(View()), LockKey(resource), lockValue);
              View() == served.(clients := clients)
      ensures var me := old(View()).At(c);
              if lockValue != "" && me.Holding? && me.key == LockKey(resource) && me.value == lockValue
              then View() == Step(old(View()), Release(c, fate))
              else clients == old(clients)
                   && (lockValue in issued && issued[lockValue].key == LockKey(resource) && lockValue != ""
                       && fate != RequestLost
                       && (forall d :: d in clients && clients[d].Holding? ==> clients[d].value != lockValue)
                       ==> View() == Step(old(View()), LateRelease(lockValue)))
    {
      if lockValue == "" {
        return false;
      }
      var result := 0;
      if fate != RequestLost {
        result := Eval(LockKey(resource), lockValue);
      }
      var me := View().At(c);
      if me.Holding? && me.key == LockKey(resource) && me.value == lockValue {
        clients := clients[c := Idle];
      }
      return fate == Delivered && result == 1;
    }
  }

  /** The system after an acquisition has begun and made n attempts. */
  function AfterAttempts(s: System, c: ClientId, begin: Event, fates: seq<Fate>, others: seq<seq<Event>>,
                         n: nat): System
    requires n <= |fates| == |others|
  {
    if n == 0 then Step(s, begin)
    else Run(AfterAttempts(s, c, begin, fates, others, n - 1), others[n - 1] + [Attempt(c, fates[n - 1])])
  }

  /** An acquisition is a stretch of a run, so all that holds of every run holds while and after it goes on. */
  lemma {:induction false} AcquisitionIsARun(s: System, c: ClientId, begin: Event, fates: seq<Fate>,
                                             others: seq<seq<Event>>, n: nat)
    requires n <= |fates| == |others|
    ensures exists trace :: AfterAttempts(s, c, begin, fates, others, n) == Run(s, trace)
  {
    if n == 0 {
      RunSnoc(s, [], begin);
      assert AfterAttempts(s, c, begin, fates, others, n) == Run(s, [] + [begin]);
    } else {
      AcquisitionIsARun(s, c, begin, fates, others, n - 1);
      var trace :| AfterAttempts(s, c, begin, fates, others, n - 1) == Run(s, trace);
      RunConcat(s, trace, others[n - 1] + [Attempt(c, fates[n - 1])]);
    }
  }

  // ----- What a failed acquisition leaves -----

  /** The store's live entry for the key is this value's, until this time. */
  predicate Owns(s: System, key: Key, value: Value, end: nat) {
    s.store.Live(key) && s.store.keys[key] == Entry(value, end)
  }

  lemma OwnsLasts(s: System, key: Key, value: Value, end: nat)
    requires Owns(s, key, value, end)
    ensures s.store.now < end
  {
  }

  /** Entries are of values that were given out. */
  ghost predicate EntriesIssued(s: System) {
    forall key :: key in s.store.keys ==> s.store.keys[key].value in s.issued
  }

  lemma StepKeepsIssued(s: System, e: Event)
    requires Inv(s) && EntriesIssued(s)
    ensures EntriesIssued(Step(s, e)) && forall value :: value in s.issued ==> value in Step(s, e).issued
  {
    if e.Attempt? || e.Release? {
      assert OwnValue(s, e.client);
    }
    hide Inv;
  }

  lemma {:induction false} RunKeepsIssued(es: seq<Event>)
    ensures Inv(Run(INIT, es)) && EntriesIssued(Run(INIT, es))
    decreases |es|
  {
    RunKeepsInv(es);
    if es != [] {
      RunKeepsIssued(es[..|es| - 1]);
      StepKeepsIssued(Run(INIT, es[..|es| - 1]), es[|es| - 1]);
    }
  }

  /** A message of the value's own that was given up as lost. */
  predicate IsLateMessage(e: Event, value: Value) {
    e == LateSet(value) || e == LateRelease(value)
  }

  /** No one else's step takes or gives an entry of a value that its client is still trying for: it only runs out. */
  lemma OtherStepOwns(s: System, e: Event, c: ClientId, end: nat)
    requires Inv(s) && s.At(c).Trying? && !Involves(e, c) && !IsLateMessage(e, s.At(c).value)
    ensures var me, t := s.At(c), Step(s, e);
            s.store.now <= t.store.now
            && (Owns(t, me.key, me.value, end) <==> Owns(s, me.key, me.value, end) && t.store.now < end)
  {
    assert OwnValue(s, c);
    if e.Attempt? || e.Release? {
      assert DistinctValues(s);
    }
    hide Inv;
  }

  lemma {:induction false} OthersOwn(s: System, es: seq<Event>, c: ClientId, end: nat)
    requires Inv(s) && s.At(c).Trying? && OfOthers(es, c)
    requires forall i :: 0 <= i < |es| ==> !IsLateMessage(es[i], s.At(c).value)
    ensures var me, t := s.At(c), Run(s, es);
            Inv(t) && t.At(c) == me && s.store.now <= t.store.now
            && (Owns(t, me.key, me.value, end) <==> Owns(s, me.key, me.value, end) && t.store.now < end)
    decreases |es|
  {
    if Owns(s, s.At(c).key, s.At(c).value, end) {
      OwnsLasts(s, s.At(c).key, s.At(c).value, end);
    }
    hide Step, Inv, Owns, Involves, IsLateMessage;
    if es != [] {
      var n := |es| - 1;
      var u := Run(s, es[..n]);
      OthersOwn(s, es[..n], c, end);
      OthersLeave(s, es, c);
      StepKeepsInv(u, es[n]);
      OtherStepOwns(u, es[n], c, end);
    }
  }

  /** An attempt that does not get the lock gives its own value an entry exactly if the store grants it and the
      reply is lost; an entry it already has it keeps. */
  lemma OwnAttemptOwns(s: System, c: ClientId, fate: Fate, end: nat)
    requires Inv(s) && s.At(c).Trying? && !Step(s, Attempt(c, fate)).At(c).Holding?
    ensures var me, t := s.At(c), Step(s, Attempt(c, fate));
            Owns(t, me.key, me.value, end) <==> Owns(s, me.key, me.value, end) || LostGrant(s, me, fate, end)
  {
    hide Inv;
  }

  /** The store grants this request, until `end`, and the reply does not arrive. */
  predicate LostGrant(s: System, me: Client, fate: Fate, end: nat)
    requires me.Trying?
  {
    fate == ReplyLost && me.ttl > 0 && !s.store.Live(me.key) && end == s.store.now + me.ttl
  }

  /** The state in which attempt n happens. */
  function BeforeAttempt(s: System, c: ClientId, begin: Event, fates: seq<Fate>, others: seq<seq<Event>>,
                         n: nat): System
    requires n < |fates| == |others|
  {
    Run(AfterAttempts(s, c, begin, fates, others, n), others[n])
  }

  /** What the others may do during an acquisition of this value. */
  predicate Apart(others: seq<seq<Event>>, c: ClientId, value: Value) {
    forall n :: 0 <= n < |others| ==>
      OfOthers(others[n], c) && forall i :: 0 <= i < |others[n]| ==> !IsLateMessage(others[n][i], value)
  }

  /** Attempt m was granted until `end` and its reply lost. */
  predicate GrantedAt(s: System, c: ClientId, begin: Event, fates: seq<Fate>, others: seq<seq<Event>>, m: nat, end: nat)
    requires begin.Begin?
  {
    m < |fates| == |others|
    && LostGrant(BeforeAttempt(s, c, begin, fates, others, m),
       Trying(begin.key, begin.value, begin.ttl, begin.retries, m), fates[m], end)
  }

  /** One of the first n attempts was granted so. */
  ghost predicate SomeGrant(s: System, c: ClientId, begin: Event, fates: seq<Fate>, others: seq<seq<Event>>, n: nat,
                            end: nat)
    requires begin.Begin?
  {
    exists m: nat :: m < n && GrantedAt(s, c, begin, fates, others, m, end)
  }

  lemma SomeGrantStep(s: System, c: ClientId, begin: Event, fates: seq<Fate>, others: seq<seq<Event>>, n: nat, end: nat)
    requires begin.Begin? && n > 0
    ensures SomeGrant(s, c, begin, fates, others, n, end) <==>
            SomeGrant(s, c, begin, fates, others, n - 1, end) || GrantedAt(s, c, begin, fates, others, n - 1, end)
  {
    hide GrantedAt;
  }

  /** One turn of the retry loop that does not get the lock. */
  lemma TurnOwns(u: System, c: ClientId, others: seq<Event>, fate: Fate, end: nat)
    requires Inv(u) && u.At(c).Trying? && OfOthers(others, c)
    requires forall i :: 0 <= i < |others| ==> !IsLateMessage(others[i], u.At(c).value)
    requires !Run(u, others + [Attempt(c, fate)]).At(c).Holding?
    ensures var me, b, t := u.At(c), Run(u, others), Run(u, others + [Attempt(c, fate)]);
            && Inv(t) && t.At(c) == Next(me) && u.store.now <= t.store.now
            && (Owns(t, me.key, me.value, end) <==>
               t.store.now < end && (Owns(u, me.key, me.value, end) || LostGrant(b, me, fate, end)))
  {
    var b := Run(u, others);
    RunSnoc(u, others, Attempt(c, fate));
    OthersOwn(u, others, c, end);
    StepKeepsInv(b, Attempt(c, fate));
    hide Run, Inv;
    OwnAttemptOwns(b, c, fate, end);
  }

  lemma HoldingStays(u: System, c: ClientId, others: seq<Event>, fate: Fate)
    requires OfOthers(others, c) && !u.At(c).Trying?
    ensures Run(u, others + [Attempt(c, fate)]).At(c) == u.At(c)
  {
    RunSnoc(u, others, Attempt(c, fate));
    OthersLeave(u, others, c);
  }

  lemma BeginOwns(s: System, c: ClientId, begin: Event, end: nat)
    requires Inv(s) && EntriesIssued(s) && s.At(c).Idle? && begin.Begin? && begin.client == c &&
             begin.value !in s.issued
    ensures var t := Step(s, begin);
            && Inv(t) && t.At(c) == Trying(begin.key, begin.value, begin.ttl, begin.retries, 0)
            && !Owns(t, begin.key, begin.value, end)
  {
    StepKeepsInv(s, begin);
    hide Inv;
  }

  /** Where an acquisition that has not got the lock by its n-th attempt stands, and what its value has in the store:
      an entry exactly if one of the attempts was granted with its reply lost, and that grant has not run out. */
  lemma {:induction false} AttemptsOwn(s: System, c: ClientId, begin: Event, fates: seq<Fate>, others: seq<seq<Event>>,
                                       n: nat, end: nat)
    requires Inv(s) && EntriesIssued(s) && s.At(c).Idle? && begin.Begin? && begin.client == c &&
             begin.value !in s.issued
    requires n <= |fates| == |others| == begin.retries + 1 && Apart(others, c, begin.value)
    requires !AfterAttempts(s, c, begin, fates, others, n).At(c).Holding?
    ensures var t := AfterAttempts(s, c, begin, fates, others, n);
            && Inv(t)
            && t.At(c)
               == (if n <= begin.retries then Trying(begin.key, begin.value, begin.ttl, begin.retries, n) else Idle)
            && (Owns(t, begin.key, begin.value, end) <==>
                  t.store.now < end && SomeGrant(s, c, begin, fates, others, n, end))
    decreases n
  {
    if n == 0 {
      BeginOwns(s, c, begin, end);
    } else {
      var u, o, fate := AfterAttempts(s, c, begin, fates, others, n - 1), others[n - 1], fates[n - 1];
      assert AfterAttempts(s, c, begin, fates, others, n) == Run(u, o + [Attempt(c, fate)]);
      assert BeforeAttempt(s, c, begin, fates, others, n - 1) == Run(u, o);
      assert Apart(others, c, begin.value) && OfOthers(o, c);
      assert GrantedAt(s, c, begin, fates, others, n - 1, end) <==>
             LostGrant(Run(u, o), Trying(begin.key, begin.value, begin.ttl, begin.retries, n - 1), fate, end);
      hide AfterAttempts, BeforeAttempt, Run, OfOthers, Inv, Owns, LostGrant, EntriesIssued, Apart, GrantedAt,
        SomeGrant;
      SomeGrantStep(s, c, begin, fates, others, n, end);
      if !u.At(c).Trying? {
        HoldingStays(u, c, o, fate);
      }
      AttemptsOwn(s, c, begin, fates, others, n - 1, end);
      TurnOwns(u, c, o, fate, end);
    }
  }

  /** A failed acquisition leaves the resource locked under its own value exactly if some attempt was granted with its
      reply lost and that grant has not run out. */
  lemma FailedAcquisitionLeaves(s: System, c: ClientId, begin: Event, fates: seq<Fate>, others: seq<seq<Event>>)
    requires Inv(s) && EntriesIssued(s) && s.At(c).Idle? && begin.Begin? && begin.client == c &&
             begin.value !in s.issued
    requires |fates| == |others| == begin.retries + 1 && Apart(others, c, begin.value)
    requires !AfterAttempts(s, c, begin, fates, others, begin.retries + 1).At(c).Holding?
    ensures var t := AfterAttempts(s, c, begin, fates, others, begin.retries + 1);
            (exists end :: Owns(t, begin.key, begin.value, end)) <==>
            exists m: nat, end: nat :: GrantedAt(s, c, begin, fates, others, m, end) && t.store.now < end
  {
    var t := AfterAttempts(s, c, begin, fates, others, begin.retries + 1);
    hide AfterAttempts, Inv, Owns, LostGrant, EntriesIssued, Apart;
    if end :| Owns(t, begin.key, begin.value, end) {
      AttemptsOwn(s, c, begin, fates, others, begin.retries + 1, end);
    }
    if m: nat, end: nat :| GrantedAt(s, c, begin, fates, others, m, end) && t.store.now < end {
      AttemptsOwn(s, c, begin, fates, others, begin.retries + 1, end);
    }
  }

  /** It does happen, whatever is done after: one lost reply, and the client is refused by its own entry. */
  lemma OwnEntryRefuses(c: ClientId, key: Key, value: Value, ttl: nat)
    requires ttl > 0
    ensures var t := Run(INIT, [Begin(c, key, value, ttl, 1), Attempt(c, ReplyLost), Attempt(c, Delivered)]);
            t.At(c) == Idle && Owns(t, key, value, ttl)
  {
    var es := [Begin(c, key, value, ttl, 1), Attempt(c, ReplyLost), Attempt(c, Delivered)];
    assert es == ([] + [es[0]] + [es[1]]) + [es[2]];
    RunSnoc(INIT, [], es[0]);
    RunSnoc(INIT, [] + [es[0]], es[1]);
    RunSnoc(INIT, [] + [es[0]] + [es[1]], es[2]);
  }
}
