/** How the bridge relayer turns an event into a command, and what a bridge id tells of it. */
module BridgeCommand {
  import opened Bytes
  import opened Wrappers

  // ----- Values of an event -----

  /** A field: null or undefined, a string, a number as printed, a boolean, or an object that may have a string
      in its own `value`, as printed. */
  datatype Value = Absent | Text(s: string) | Numeric(digits: string) | Flag(b: bool)
    | Boxed(inner: Option<string>, shown: string)

  /** An event by the paths of its fields, "details.amount" for `event.details?.amount`. */
  type Event = map<string, Value>

  function Field(e: Event, path: string): Value {
    if path in e then e[path] else Absent
  }

  predicate IsSpace(c: char) {
    c in "\t\n\r \U{0b}\U{0c}\U{a0}\U{1680}\U{2028}\U{2029}\U{202f}\U{205f}\U{3000}\U{feff}" ||
      '\U{2000}' <= c <= '\U{200a}'
  }

  function TrimStart(s: string): string {
    if s != "" && IsSpace(s[0]) then TrimStart(s[1..]) else s
  }

  function TrimEnd(s: string): string {
    if s != "" && IsSpace(s[|s| - 1]) then TrimEnd(s[..|s| - 1]) else s
  }

  function LowerChar(c: char): char {
    if 'A' <= c <= 'Z' then (c as int - 'A' as int + 'a' as int) as char else c
  }

  function Lower(s: string): string {
    seq(|s|, i requires 0 <= i < |s| => LowerChar(s[i]))
  }

  function NormalizeText(v: Value): string {
    match v
    case Absent => ""
    case Text(s) => Lower(TrimEnd(TrimStart(s)))
    case Numeric(digits) => Lower(digits)
    case Flag(b) => if b then "true" else "false"
    case Boxed(Some(s), _) => Lower(TrimEnd(TrimStart(s)))
    case Boxed(None, shown) => Lower(shown)
  }

  /** The middle of a text: nothing but white space is left off, and none is left at its ends. */
  ghost predicate IsMiddle(s: string, i: nat, j: nat) {
    && i <= j <= |s| && (forall k :: 0 <= k < i || j <= k < |s| ==> IsSpace(s[k]))
    && (i < j ==> !IsSpace(s[i]) && !IsSpace(s[j - 1]))
  }

  lemma {:induction false} StartTrimmed(s: string) returns (i: nat)
    ensures i <= |s| && TrimStart(s) == s[i..] && (forall k :: 0 <= k < i ==> IsSpace(s[k]))
    ensures i < |s| ==> !IsSpace(s[i])
  {
    hide IsSpace;
    if s == "" || !IsSpace(s[0]) {
      return 0;
    }
    var h := StartTrimmed(s[1..]);
    assert forall k :: 0 < k < h + 1 ==> s[k] == s[1..][k - 1];
    return h + 1;
  }

  lemma {:induction false} EndTrimmed(s: string) returns (j: nat)
    ensures j <= |s| && TrimEnd(s) == s[..j] && (forall k :: j <= k < |s| ==> IsSpace(s[k]))
    ensures j > 0 ==> !IsSpace(s[j - 1])
    decreases |s|
  {
    hide IsSpace;
    if s == "" || !IsSpace(s[|s| - 1]) {
      return |s|;
    }
    j := EndTrimmed(s[..|s| - 1]);
  }

  /** A text, or the text in an object, is normalized to its middle in lower case. */
  lemma TextIsTrimmed(s: string, shown: string)
    ensures NormalizeText(Boxed(Some(s), shown)) == NormalizeText(Text(s))
    ensures exists i: nat, j: nat :: IsMiddle(s, i, j) && NormalizeText(Text(s)) == Lower(s[i..j])
  {
    var i := StartTrimmed(s);
    var h := EndTrimmed(s[i..]);
    hide IsSpace, TrimStart, TrimEnd, Lower;
    var j := i + h;
    assert s[i..][..h] == s[i..j];
    assert forall k :: i <= k < |s| ==> s[k] == s[i..][k - i];
    assert IsMiddle(s, i, j);
  }

  /** The first candidate that is not empty, normalized. */
  function PickFirst(candidates: seq<Value>): string {
    if candidates == [] then ""
    else if NormalizeText(candidates[0]) != "" then NormalizeText(candidates[0])
    else PickFirst(candidates[1..])
  }

  /** Several fields of an event, in order. */
  function Fields(e: Event, paths: seq<string>): seq<Value> {
    seq(|paths|, i requires 0 <= i < |paths| => Field(e, paths[i]))
  }

  lemma {:induction false} PicksTheFirst(candidates: seq<Value>)
    ensures var r := PickFirst(candidates);
            && (r == "" <==> forall i :: 0 <= i < |candidates| ==> NormalizeText(candidates[i]) == "")
            && (r != "" ==> exists i :: 0 <= i < |candidates| && NormalizeText(candidates[i]) == r
                                        && forall j :: 0 <= j < i ==> NormalizeText(candidates[j]) == "")
  {
    hide NormalizeText;
    if candidates != [] {
      var rest := candidates[1..];
      PicksTheFirst(rest);
      assert forall i :: 0 <= i < |rest| ==> rest[i] == candidates[i + 1];
      if NormalizeText(candidates[0]) == "" && PickFirst(rest) != "" {
        var i :| 0 <= i < |rest| && NormalizeText(rest[i]) == PickFirst(rest) &&
          forall j :: 0 <= j < i ==> NormalizeText(rest[j]) == "";
        assert forall j :: 0 < j < i + 1 ==> NormalizeText(candidates[j]) == NormalizeText(rest[j - 1]);
        assert NormalizeText(candidates[i + 1]) == PickFirst(rest);
      }
    }
  }

  // ----- Actions -----

  datatype Family = Lock | Release | Mint | Burn | Transfer

  function Actions(f: Family): seq<string> {
    match f
    case Lock => ["lock", "deposit", "bridge.lock", "bridge.deposit", "bridge_locked"]
    case Release => ["release", "withdraw", "bridge.release", "bridge.withdraw", "bridge_released"]
    case Mint => ["mint", "bridge.mint", "bridge_mint"]
    case Burn => ["burn", "bridge.burn", "bridge_burn"]
    case Transfer => ["transfer", "bridge.transfer"]
  }

  /** The first family, in the order of the table, that lists the action. */
  function GetActionFamily(action: string): Option<Family> {
    var n := NormalizeText(Text(action));
    if n in Actions(Lock) then Some(Lock)
    else if n in Actions(Release) then Some(Release)
    else if n in Actions(Mint) then Some(Mint)
    else if n in Actions(Burn) then Some(Burn)
    else if n in Actions(Transfer) then Some(Transfer)
    else None
  }

  function Name(f: Family): string {
    match f
    case Lock => "LOCK"
    case Release => "RELEASE"
    case Mint => "MINT"
    case Burn => "BURN"
    case Transfer => "TRANSFER"
  }

  function GetRelayAction(f: Family): string {
    match f
    case Lock => "mint"
    case Release => "release"
    case Mint => "mint"
    case Burn => "release"
    case Transfer => "transfer"
  }

  /** Last letter and length tell the families apart. */
  function FamilyByEnding(action: string): Family
    requires action != ""
  {
    var last := action[|action| - 1];
    if last == 'e' || last == 'w' || (last == 'd' && |action| == 15) then Release
    else if last == 't' && (|action| == 4 || |action| == 11) then Mint
    else if last == 'n' then Burn
    else if last == 'r' then Transfer
    else Lock
  }

  lemma EndingTells(action: string, f: Family)
    requires action in Actions(f)
    ensures action != "" && FamilyByEnding(action) == f
  {
  }

  /** The actions of each family. */
  lemma FamiliesAre(action: string)
    ensures var n, f := NormalizeText(Text(action)), GetActionFamily(action);
            && (f == Some(Lock) <==> n in {"lock", "deposit", "bridge.lock", "bridge.deposit", "bridge_locked"})
            && (f == Some(Release) <==>
                  n in {"release", "withdraw", "bridge.release", "bridge.withdraw", "bridge_released"})
            && (f == Some(Mint) <==> n in {"mint", "bridge.mint", "bridge_mint"})
            && (f == Some(Burn) <==> n in {"burn", "bridge.burn", "bridge_burn"})
            && (f == Some(Transfer) <==> n in {"transfer", "bridge.transfer"})
  {
    forall f { FamilyExactly(action, f); }
    hide NormalizeText, GetActionFamily;
  }

  /** No action is in two families, so the order of the table does not matter. */
  lemma FamilyExactly(action: string, f: Family)
    ensures GetActionFamily(action) == Some(f) <==> NormalizeText(Text(action)) in Actions(f)
  {
    hide Actions, NormalizeText, FamilyByEnding;
    var n := NormalizeText(Text(action));
    forall g | n in Actions(g) ensures n != "" && FamilyByEnding(n) == g {
      EndingTells(n, g);
    }
  }

  // ----- Bridge ids -----

  function Sextet(n: nat): char
    requires n < 64
  {
    if n < 26 then ('A' as int + n) as char
    else if n < 52 then ('a' as int + n - 26) as char
    else if n < 62 then ('0' as int + n - 52) as char
    else if n == 62 then '+' else '/'
  }

  /** One to three bytes as four characters. */
  function Quad(b: Bytes): (q: string)
    requires 1 <= |b| <= 3
    ensures |q| == 4
  {
    var b0: nat := b[0];
    var b1: nat := if |b| > 1 then b[1] else 0;
    var b2: nat := if |b| > 2 then b[2] else 0;
    [Sextet(b0 / 4), Sextet(b0 % 4 * 16 + b1 / 16),
     if |b| > 1 then Sextet(b1 % 16 * 4 + b2 / 64) else '=',
     if |b| > 2 then Sextet(b2 % 64) else '=']
  }

  /** What comes before the first n elements end, and what comes after. */
  function Cut<T>(s: seq<T>, n: nat): seq<T> {
    if |s| <= n then s else s[..n]
  }

  function Past<T>(s: seq<T>, n: nat): seq<T> {
    if |s| <= n then [] else s[n..]
  }

  function Base64(b: Bytes): string
    decreases |b|
  {
    if b == [] then "" else Quad(Cut(b, 3)) + Base64(Past(b, 3))
  }

  function Utf8Char(c: char): Bytes {
    var n := c as int;
    if n < 0x80 then [n]
    else if n < 0x800 then [0xc0 + n / 0x40, 0x80 + n % 0x40]
    else if n < 0x1_0000 then [0xe0 + n / 0x1000, 0x80 + n / 0x40 % 0x40, 0x80 + n % 0x40]
    else [0xf0 + n / 0x4_0000, 0x80 + n / 0x1000 % 0x40, 0x80 + n / 0x40 % 0x40, 0x80 + n % 0x40]
  }

  function Utf8(s: string): Bytes {
    if s == "" then [] else Utf8Char(s[0]) + Utf8(s[1..])
  }

  const ID_LENGTH: nat := 64

  function BridgeIdOf(combined: string): string {
    Cut(Base64(Utf8(combined)), ID_LENGTH)
  }

  lemma SextetInjective(m: nat, n: nat)
    requires m < 64 && n < 64 && Sextet(m) == Sextet(n)
    ensures m == n
  {
  }

  lemma EqualLengths(a: Bytes, b: Bytes)
    requires 1 <= |a| <= 3 && 1 <= |b| <= 3 && Quad(a)[2] == Quad(b)[2] && Quad(a)[3] == Quad(b)[3]
    ensures |a| == |b|
  {
  }

  /** Two numbers packed into one come apart again. */
  lemma Unpack(hi: nat, lo: nat, hj: nat, lp: nat, base: nat)
    requires lo < base && lp < base && (base == 16 || base == 4)
    requires hi * base + lo == hj * base + lp
    ensures hi == hj && lo == lp
  {
  }

  lemma QuadInjective(a: Bytes, b: Bytes)
    requires 1 <= |a| <= 3 && 1 <= |b| <= 3 && Quad(a) == Quad(b)
    ensures a == b
  {
    var qa, qb := Quad(a), Quad(b);
    assert qa[0] == qb[0] && qa[1] == qb[1] && qa[2] == qb[2] && qa[3] == qb[3];
    EqualLengths(a, b);
    var a0: nat, b0: nat := a[0], b[0];
    var a1: nat, b1: nat := if |a| > 1 then a[1] else 0, if |b| > 1 then b[1] else 0;
    var a2: nat, b2: nat := if |a| > 2 then a[2] else 0, if |b| > 2 then b[2] else 0;
    assert qa[0] == Sextet(a0 / 4) && qb[0] == Sextet(b0 / 4);
    assert qa[1] == Sextet(a0 % 4 * 16 + a1 / 16) && qb[1] == Sextet(b0 % 4 * 16 + b1 / 16);
    assert |a| > 1 ==> qa[2] == Sextet(a1 % 16 * 4 + a2 / 64) && qb[2] == Sextet(b1 % 16 * 4 + b2 / 64);
    assert |a| > 2 ==> qa[3] == Sextet(a2 % 64) && qb[3] == Sextet(b2 % 64);
    hide Quad, Sextet;
    SextetInjective(a0 / 4, b0 / 4);
    SextetInjective(a0 % 4 * 16 + a1 / 16, b0 % 4 * 16 + b1 / 16);
    Unpack(a0 % 4, a1 / 16, b0 % 4, b1 / 16, 16);
    if |a| > 1 {
      SextetInjective(a1 % 16 * 4 + a2 / 64, b1 % 16 * 4 + b2 / 64);
      Unpack(a1 % 16, a2 / 64, b1 % 16, b2 / 64, 4);
    }
    if |a| > 2 {
      SextetInjective(a2 % 64, b2 % 64);
    }
    assert a0 == b0 && a1 == b1 && a2 == b2;
  }

  lemma CutJoin<T>(s: seq<T>, m: nat, n: nat)
    ensures Cut(s, m) + Cut(Past(s, m), n) == Cut(s, m + n)
    ensures m > 0 && n > 0 && s != [] ==>
              Cut(Cut(s, m + n), m) == Cut(s, m) && Past(Cut(s, m + n), m) == Cut(Past(s, m), n)
  {
  }

  /** Cutting a Base64 text after whole quads is encoding the bytes cut after whole triples. */
  lemma {:induction false} Base64Cut(b: Bytes, k: nat)
    ensures Cut(Base64(b), 4 * k) == Base64(Cut(b, 3 * k))
    decreases k
  {
    hide Quad;
    if k > 0 && b != [] {
      var head, rest := Quad(Cut(b, 3)), Past(b, 3);
      Base64Cut(rest, k - 1);
      CutJoin(b, 3, 3 * (k - 1));
      assert Cut(head + Base64(rest), 4 * k) == head + Cut(Base64(rest), 4 * (k - 1));
    }
  }

  lemma {:induction false} Base64Injective(a: Bytes, b: Bytes)
    requires Base64(a) == Base64(b)
    ensures a == b
    decreases |a|
  {
    hide Quad;
    if a != [] && b != [] {
      var qa, qb := Quad(Cut(a, 3)), Quad(Cut(b, 3));
      assert Base64(a)[..4] == qa && Base64(a)[4..] == Base64(Past(a, 3));
      assert Base64(b)[..4] == qb && Base64(b)[4..] == Base64(Past(b, 3));
      QuadInjective(Cut(a, 3), Cut(b, 3));
      Base64Injective(Past(a, 3), Past(b, 3));
      assert a == Cut(a, 3) + Past(a, 3) && b == Cut(b, 3) + Past(b, 3);
    }
  }

  /** Bridge ids agree exactly when the texts agree in their first 48 bytes. */
  lemma BridgeIdsAgree(s: string, t: string)
    ensures BridgeIdOf(s) == BridgeIdOf(t) <==> Cut(Utf8(s), 48) == Cut(Utf8(t), 48)
  {
    hide Base64, Utf8;
    Base64Cut(Utf8(s), 16);
    Base64Cut(Utf8(t), 16);
    if BridgeIdOf(s) == BridgeIdOf(t) {
      Base64Injective(Cut(Utf8(s), 48), Cut(Utf8(t), 48));
    }
  }

  lemma {:induction false} Utf8Concat(s: string, t: string)
    ensures Utf8(s + t) == Utf8(s) + Utf8(t) && |Utf8(s)| >= |s|
  {
    hide Utf8Char;
    if s == "" {
      assert s + t == t;
    } else {
      assert (s + t)[1..] == s[1..] + t;
      Utf8Concat(s[1..], t);
      CharTakesBytes(s[0]);
    }
  }

  lemma CharTakesBytes(c: char)
    ensures |Utf8Char(c)| >= 1
  {
  }

  function JoinedWith(sep: string, parts: seq<string>): string {
    if parts == [] then "" else if |parts| == 1 then parts[0] else parts[0] + sep + JoinedWith(sep, parts[1..])
  }

  function OrElse(s: string, fallback: string): string {
    if s != "" then s else fallback
  }

  /** What the id says of an event before its own id or the time. */
  function IdentityOf(source: string, family: Family, symbol: string, amount: string, recipient: string): string {
    source + "|" + Name(family) + "|" + OrElse(symbol, "unknown-token") + "|" + OrElse(amount, "0") + "|"
      + OrElse(recipient, "unknown-addr") + "|"
  }

  predicate Truthy(v: Value) {
    match v
    case Absent => false
    case Text(s) => s != ""
    case Numeric(digits) => digits != "0" && digits != "NaN"
    case Flag(b) => b
    case Boxed(_, _) => true
  }

  function Printed(v: Value): string {
    match v
    case Absent => ""
    case Text(s) => s
    case Numeric(digits) => digits
    case Flag(b) => if b then "true" else "false"
    case Boxed(_, shown) => shown
  }

  /** `event.id || event.eventId || Date.now()`. */
  function EventId(e: Event, now: string): string {
    if Truthy(Field(e, "id")) then Printed(Field(e, "id"))
    else if Truthy(Field(e, "eventId")) then Printed(Field(e, "eventId"))
    else now
  }

  function CreateBridgeId(source: string, e: Event, family: Family, symbol: string, amount: string, recipient: string,
                          now: string): string {
    BridgeIdOf(JoinedWith("|", [source, Name(family), OrElse(symbol, "unknown-token"), OrElse(amount, "0"),
                                OrElse(recipient, "unknown-addr"), EventId(e, now)]))
  }

  lemma SixParts(a: string, b: string, c: string, d: string, e: string, f: string)
    ensures JoinedWith("|", [a, b, c, d, e, f]) == a + "|" + b + "|" + c + "|" + d + "|" + e + "|" + f
  {
    assert [a, b, c, d, e, f][1..] == [b, c, d, e, f] && [b, c, d, e, f][1..] == [c, d, e, f];
    assert [c, d, e, f][1..] == [d, e, f] && [d, e, f][1..] == [e, f] && [e, f][1..] == [f];
    assert JoinedWith("|", [e, f]) == e + "|" + f;
    assert JoinedWith("|", [c, d, e, f]) == c + "|" + (d + "|" + (e + "|" + f));
    assert JoinedWith("|", [a, b, c, d, e, f]) == a + "|" + (b + "|" + (c + "|" + (d + "|" + (e + "|" + f))));
  }

  /** Of two events with the same source, family, symbol, amount and recipient, the ids are equal exactly if
      what those leave of the first 48 bytes is the same in the events' own ids. */
  lemma SameIdExactly(source: string, family: Family, symbol: string, amount: string, recipient: string,
                      e1: Event, now1: string, e2: Event, now2: string)
    ensures var taken := |Utf8(IdentityOf(source, family, symbol, amount, recipient))|;
            CreateBridgeId(source, e1, family, symbol, amount, recipient, now1)
              == CreateBridgeId(source, e2, family, symbol, amount, recipient, now2)
            <==> (taken >= 48 || Cut(Utf8(EventId(e1, now1)), 48 - taken) == Cut(Utf8(EventId(e2, now2)), 48 - taken))
  {
    var identity := IdentityOf(source, family, symbol, amount, recipient);
    var id1, id2 := EventId(e1, now1), EventId(e2, now2);
    SixParts(source, Name(family), OrElse(symbol, "unknown-token"), OrElse(amount, "0"),
      OrElse(recipient, "unknown-addr"), id1);
    SixParts(source, Name(family), OrElse(symbol, "unknown-token"), OrElse(amount, "0"),
      OrElse(recipient, "unknown-addr"), id2);
    hide JoinedWith, EventId, BridgeIdOf, Utf8, OrElse, Name;
    assert CreateBridgeId(source, e1, family, symbol, amount, recipient, now1) == BridgeIdOf(identity + id1);
    assert CreateBridgeId(source, e2, family, symbol, amount, recipient, now2) == BridgeIdOf(identity + id2);
    hide IdentityOf, CreateBridgeId;
    BridgeIdsAgree(identity + id1, identity + id2);
    Utf8Concat(identity, id1);
    Utf8Concat(identity, id2);
    CutOfJoin(Utf8(identity), Utf8(id1), Utf8(id2), 48);
  }

  lemma CutOfJoin<T>(a: seq<T>, b: seq<T>, c: seq<T>, n: nat)
    ensures Cut(a + b, n) == Cut(a + c, n) <==> (|a| >= n || Cut(b, n - |a|) == Cut(c, n - |a|))
  {
    if |a| < n {
      var x, y := Cut(b, n - |a|), Cut(c, n - |a|);
      assert Cut(a + b, n) == a + x && Cut(a + c, n) == a + y;
      assert (a + x)[|a|..] == x && (a + y)[|a|..] == y;
    } else {
      assert Cut(a + b, n) == a[..n] == Cut(a + c, n);
    }
  }

  /** For a recipient of 36 characters or more, so for every Stellar or EVM address, the id does not depend on
      the event: transfers of one amount to one address all get the same. */
  lemma AddressHidesEvent(source: string, family: Family, symbol: string, amount: string, recipient: string,
                          e1: Event, now1: string, e2: Event, now2: string)
    requires source != "" && |recipient| >= 36
    ensures CreateBridgeId(source, e1, family, symbol, amount, recipient, now1)
            == CreateBridgeId(source, e2, family, symbol, amount, recipient, now2)
  {
    SameIdExactly(source, family, symbol, amount, recipient, e1, now1, e2, now2);
    var identity := IdentityOf(source, family, symbol, amount, recipient);
    assert |identity| >= 48;
    Utf8Concat(identity, "");
  }

  // ----- Commands -----

  const AMOUNT := ["amount", "value", "details.amount", "details.value", "args.amount", "args.value"]
  const RECIPIENT := ["recipient", "destination", "details.recipient", "details.destination", "args.recipient",
    "args.destination", "args.to"]
  const SENDER := ["sender", "from", "data.sender", "details.sender", "args.sender", "args.from"]
  const SYMBOL := ["symbol", "assetSymbol", "token", "details.symbol", "args.symbol"]
  const CONTRACT := ["contractId", "details.contractId", "args.contractId"]
  const TX_HASH := ["transactionHash", "txHash", "hash", "transaction_hash", "id"]
  const EVENT_ID := ["id", "eventId", "sequence", "paging_token"]

  datatype Command = Command(
    bridgeId: string, sourceChain: string, targetChain: string, sourceAction: string, targetAction: string,
    family: Family, symbol: string, contractId: string, amount: string, recipient: string, sender: string,
    sourceTxHash: string, sourceEventId: string)

  /** The `event` field counts as an action only if it is a string. */
  function ActionValues(e: Event): seq<Value> {
    [Field(e, "action"), Field(e, "type"), if Field(e, "event").Text? then Field(e, "event") else Absent]
  }

  function Pick(e: Event, paths: seq<string>): string {
    PickFirst(Fields(e, paths))
  }

  function BuildRelayCommand(sourceChain: Value, event: Option<Event>, now: string): Option<Command> {
    var source := NormalizeText(sourceChain);
    if source == "" || event.None? then None
    else
      var e := event.value;
      var targetChain := if source == "soroban" then "evm" else "soroban";
      var sourceAction := PickFirst(ActionValues(e));
      if sourceAction == "" || GetActionFamily(sourceAction).None? then None
      else
        var family := GetActionFamily(sourceAction).value;
        var symbol, amount, recipient := Pick(e, SYMBOL), Pick(e, AMOUNT), Pick(e, RECIPIENT);
        if recipient == "" && amount == "" then None
        else Some(Command(CreateBridgeId(source, e, family, symbol, amount, recipient, now), source, targetChain,
                          sourceAction, GetRelayAction(family), family, symbol, Pick(e, CONTRACT), amount, recipient,
                          Pick(e, SENDER), Pick(e, TX_HASH), Pick(e, EVENT_ID)))
  }

  /** Some field of the event, on one of the paths, says something. */
  ghost predicate Says(e: Event, paths: seq<string>) {
    exists i :: 0 <= i < |paths| && NormalizeText(Field(e, paths[i])) != ""
  }

  /** The value is the first of the candidates that says anything. */
  ghost predicate FirstSaid(candidates: seq<Value>, i: nat, text: string) {
    i < |candidates| && NormalizeText(candidates[i]) == text != "" &&
      forall j :: 0 <= j < i ==> NormalizeText(candidates[j]) == ""
  }

  /** The fields before k say nothing, and the text is what field k says, or empty if there is none. */
  predicate SaidAt(e: Event, paths: seq<string>, k: nat, text: string) {
    && k <= |paths| && (forall j :: 0 <= j < k ==> NormalizeText(Field(e, paths[j])) == "")
    && if k < |paths| then text == NormalizeText(Field(e, paths[k])) != "" else text == ""
  }

  /** The text is what the first of these fields says that says anything; it is empty if none does. */
  ghost predicate FirstOf(e: Event, paths: seq<string>, text: string) {
    exists k: nat :: SaidAt(e, paths, k, text)
  }

  lemma PickIsFirst(e: Event, paths: seq<string>)
    ensures FirstOf(e, paths, Pick(e, paths))
  {
    var values := Fields(e, paths);
    PicksTheFirst(values);
    hide NormalizeText, PickFirst;
    assert forall i :: 0 <= i < |paths| ==> values[i] == Field(e, paths[i]);
    if Pick(e, paths) == "" {
      assert SaidAt(e, paths, |paths|, "");
    } else {
      var i: nat :| i < |values| && NormalizeText(values[i]) == Pick(e, paths) &&
        forall j :: 0 <= j < i ==> NormalizeText(values[j]) == "";
      assert SaidAt(e, paths, i, Pick(e, paths));
    }
  }

  /** What a command carries: each part is what the first of its own fields says, the bridge id is made of them. */
  lemma CarriesWhatIsSaid(sourceChain: Value, event: Option<Event>, now: string)
    ensures match BuildRelayCommand(sourceChain, event, now)
            case None => true
            case Some(c) =>
              var e := event.value;
              && FirstOf(e, ["amount", "value", "details.amount", "details.value", "args.amount", "args.value"],
                         c.amount)
              && FirstOf(e, ["recipient", "destination", "details.recipient", "details.destination",
                             "args.recipient", "args.destination", "args.to"], c.recipient)
              && FirstOf(e, ["sender", "from", "data.sender", "details.sender", "args.sender", "args.from"], c.sender)
              && FirstOf(e, ["symbol", "assetSymbol", "token", "details.symbol", "args.symbol"], c.symbol)
              && FirstOf(e, ["contractId", "details.contractId", "args.contractId"], c.contractId)
              && FirstOf(e, ["transactionHash", "txHash", "hash", "transaction_hash", "id"], c.sourceTxHash)
              && FirstOf(e, ["id", "eventId", "sequence", "paging_token"], c.sourceEventId)
              && c.bridgeId == CreateBridgeId(c.sourceChain, e, c.family, c.symbol, c.amount, c.recipient, now)
  {
    hide NormalizeText, PickFirst, FirstOf, ActionValues, GetActionFamily, CreateBridgeId, Fields, Pick,
      GetRelayAction;
    if event.Some? {
      var e := event.value;
      PickIsFirst(e, AMOUNT);
      PickIsFirst(e, RECIPIENT);
      PickIsFirst(e, SENDER);
      PickIsFirst(e, SYMBOL);
      PickIsFirst(e, CONTRACT);
      PickIsFirst(e, TX_HASH);
      PickIsFirst(e, EVENT_ID);
    }
  }

  /** A command's action is the first that the event's action, type and textual event say, and is listed in its family;
      the action to take follows from the family. */
  lemma ActsByFamily(sourceChain: Value, event: Option<Event>, now: string)
    ensures match BuildRelayCommand(sourceChain, event, now)
            case None => true
            case Some(c) =>
              var e := event.value;
              var textual := if Field(e, "event").Text? then Field(e, "event") else Absent;
              var values := [Field(e, "action"), Field(e, "type"), textual];
              && (exists i: nat :: FirstSaid(values, i, c.sourceAction))
              && GetActionFamily(c.sourceAction) == Some(c.family)
              && c.targetAction == match c.family
                                   case Lock => "mint"
                                   case Release => "release"
                                   case Mint => "mint"
                                   case Burn => "release"
                                   case Transfer => "transfer"
  {
    hide NormalizeText, PickFirst, GetActionFamily, CreateBridgeId, Fields, Pick;
    if BuildRelayCommand(sourceChain, event, now).Some? {
      var values := ActionValues(event.value);
      PicksTheFirst(values);
      var i: nat :| i < |values| && NormalizeText(values[i]) == PickFirst(values) &&
        forall j :: 0 <= j < i ==> NormalizeText(values[j]) == "";
      assert FirstSaid(values, i, PickFirst(values));
    }
  }

  /** The bridge id, written out: the first 64 characters of the Base64 text of six parts. */
  lemma BridgeIdIs(source: string, e: Event, family: Family, symbol: string, amount: string, recipient: string,
                   now: string)
    ensures var name := match family
                        case Lock => "LOCK"
                        case Release => "RELEASE"
                        case Mint => "MINT"
                        case Burn => "BURN"
                        case Transfer => "TRANSFER";
            var text := source + "|" + name + "|" + (if symbol == "" then "unknown-token" else symbol) + "|"
                        + (if amount == "" then "0" else amount) + "|"
                        + (if recipient == "" then "unknown-addr" else recipient) + "|"
                        + (if Truthy(Field(e, "id")) then Printed(Field(e, "id"))
                           else if Truthy(Field(e, "eventId")) then Printed(Field(e, "eventId")) else now);
            CreateBridgeId(source, e, family, symbol, amount, recipient, now) == Cut(Base64(Utf8(text)), 64)
  {
    SixParts(source, Name(family), OrElse(symbol, "unknown-token"), OrElse(amount, "0"),
      OrElse(recipient, "unknown-addr"), EventId(e, now));
    hide JoinedWith, Utf8, Base64;
  }

  /** A command is built exactly for a named chain and an event whose first action that says anything is a listed
      one, and that says an amount or a recipient. */
  lemma BuiltExactly(sourceChain: Value, event: Option<Event>, now: string)
    ensures BuildRelayCommand(sourceChain, event, now).Some? <==>
            && NormalizeText(sourceChain) != "" && event.Some?
            && (exists i: nat, text :: FirstSaid(ActionValues(event.value), i, text) && IsListed(text))
            && (Says(event.value, AMOUNT) || Says(event.value, RECIPIENT))
  {
    hide NormalizeText, PickFirst, Says, FirstSaid, ActionValues, GetActionFamily, CreateBridgeId, Actions, Fields,
      IsListed, Pick, GetRelayAction;
    if event.Some? {
      ActionFound(event.value);
      PickSays(event.value, AMOUNT);
      PickSays(event.value, RECIPIENT);
    }
  }

  ghost predicate IsListed(action: string) {
    exists f :: NormalizeText(Text(action)) in Actions(f)
  }

  /** A command goes to another chain than it came from, with the action that completes its family's. */
  lemma GoesAcross(sourceChain: Value, event: Option<Event>, now: string)
    ensures match BuildRelayCommand(sourceChain, event, now)
            case None => true
            case Some(c) =>
              && c.sourceChain == NormalizeText(sourceChain) && c.targetChain != c.sourceChain
              && c.targetChain == (if c.sourceChain == "soroban" then "evm" else "soroban")
              && NormalizeText(Text(c.sourceAction)) in Actions(c.family)
              && (c.amount != "" || c.recipient != "")
  {
    hide NormalizeText, PickFirst, ActionValues, GetActionFamily, CreateBridgeId, Actions, Fields, Pick, GetRelayAction;
    var r := BuildRelayCommand(sourceChain, event, now);
    if r.Some? {
      FamilyExactly(r.value.sourceAction, r.value.family);
    }
  }

  lemma PickSays(e: Event, paths: seq<string>)
    ensures Pick(e, paths) != "" <==> Says(e, paths)
  {
    var values := Fields(e, paths);
    PicksTheFirst(values);
    hide NormalizeText, PickFirst;
    assert forall i :: 0 <= i < |paths| ==> values[i] == Field(e, paths[i]);
  }

  lemma ActionFound(e: Event)
    ensures var a := PickFirst(ActionValues(e));
            a != "" && GetActionFamily(a).Some? <==>
            exists i: nat, text :: FirstSaid(ActionValues(e), i, text) && IsListed(text)
  {
    var values, a := ActionValues(e), PickFirst(ActionValues(e));
    PicksTheFirst(values);
    forall f { FamilyExactly(a, f); }
    hide NormalizeText, PickFirst, ActionValues, Actions, GetActionFamily;
    if a != "" {
      var i: nat :| i < |values| && NormalizeText(values[i]) == a &&
        forall j :: 0 <= j < i ==> NormalizeText(values[j]) == "";
      assert FirstSaid(values, i, a);
      forall k: nat, text | FirstSaid(values, k, text) ensures text == a {
        assert !(k < i) && !(i < k);
      }
    }
  }
}
