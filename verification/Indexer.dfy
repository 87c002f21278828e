/** The historical event indexer: fetch a page, insert it, advance the cursor; on any failure, try again. */
module Indexer {
  import opened Wrappers

  /** An event with its paging token; `storable` when it passes the validation of the event schema. */
  datatype Event = Event(token: int, storable: bool, body: string)

  const BATCH_SIZE: nat := 1000

  /** How an unordered insert ends, documents being named by their position in the page. It has run: every document
      was tried, and those in `failing` met another error than a duplicate key. Or it was interrupted, and only
      those in `tried` had come to the collection. */
  datatype Insertion = Ran(failing: set<nat>) | Interrupted(tried: set<nat>)

  /** One turn of the loop. The server holds the first `visible` events of the log when it answers, and
      answers at most `page` of those after the cursor. */
  datatype Attempt = FetchFails | Fetched(visible: nat, page: nat, insertion: Insertion)

  datatype State = State(docs: seq<Event>, cursor: Option<int>, processedCount: nat, finished: bool)

  predicate Has(docs: seq<Event>, token: int) {
    exists i :: 0 <= i < |docs| && docs[i].token == token
  }

  /** The events after a cursor. */
  function After(log: seq<Event>, cursor: Option<int>): seq<Event> {
    if log == [] || cursor.None? || log[0].token > cursor.value then log else After(log[1..], cursor)
  }

  function GetEvents(log: seq<Event>, cursor: Option<int>, visible: nat, page: nat): seq<Event> {
    var rest := After(log[..Min(visible, |log|)], cursor);
    rest[..Min(|rest|, Min(BATCH_SIZE, page))]
  }

  /** The unique index on the token turns a second insert into a duplicate-key error. */
  function Insert(docs: seq<Event>, e: Event): seq<Event> {
    if e.storable && !Has(docs, e.token) then docs + [e] else docs
  }

  predicate Reaches(how: Insertion, i: nat) {
    if how.Ran? then i !in how.failing else i in how.tried
  }

  function InsertFrom(docs: seq<Event>, events: seq<Event>, how: Insertion, i: nat): seq<Event>
    decreases |events| - i
  {
    if i >= |events| then docs
    else InsertFrom(if Reaches(how, i) then Insert(docs, events[i]) else docs, events, how, i + 1)
  }

  datatype WriteError = DuplicateKey | OtherError

  /** The error on one document, if any; those that do not pass the schema are dropped before the insert. */
  function ErrorOn(docs: seq<Event>, e: Event, fails: bool): Option<WriteError> {
    if !e.storable then None
    else if fails then Some(OtherError)
    else if Has(docs, e.token) then Some(DuplicateKey)
    else None
  }

  /** The first of the write errors, whose code the driver reports for all of them. */
  function FirstError(docs: seq<Event>, events: seq<Event>, failing: set<nat>, i: nat): Option<WriteError>
    decreases |events| - i
  {
    if i >= |events| then None
    else
      var error := ErrorOn(docs, events[i], i in failing);
      if error.Some? then error else FirstError(Insert(docs, events[i]), events, failing, i + 1)
  }

  /** A duplicate key, or no error at all, lets the worker go on. */
  predicate GoesOn(docs: seq<Event>, events: seq<Event>, how: Insertion) {
    how.Ran? && FirstError(docs, events, how.failing, 0) != Some(OtherError)
  }

  function Step(log: seq<Event>, s: State, a: Attempt): State {
    if s.finished || a.FetchFails? then s
    else
      var events := GetEvents(log, s.cursor, a.visible, a.page);
      if events == [] then s.(finished := true)
      else
        var docs := InsertFrom(s.docs, events, a.insertion, 0);
        if !GoesOn(s.docs, events, a.insertion) then s.(docs := docs)
        else State(docs, Some(events[|events| - 1].token), s.processedCount + |events|, false)
  }

  function Run(log: seq<Event>, s: State, attempts: seq<Attempt>): State
    decreases |attempts|
  {
    if attempts == [] then s else Run(log, Step(log, s, attempts[0]), attempts[1..])
  }

  // ----- What every run keeps -----

  ghost predicate Ordered(log: seq<Event>) {
    forall i, j :: 0 <= i < j < |log| ==> log[i].token < log[j].token
  }

  ghost predicate UniqueTokens(docs: seq<Event>) {
    forall i, j :: 0 <= i < j < |docs| ==> docs[i].token != docs[j].token
  }

  ghost predicate AllStored(docs: seq<Event>, events: seq<Event>) {
    forall i :: 0 <= i < |events| && events[i].storable ==> Has(docs, events[i].token)
  }

  /** `docs` extends `start` by storable events of the log. */
  ghost predicate Grown(start: seq<Event>, docs: seq<Event>, log: seq<Event>) {
    start <= docs && forall i :: |start| <= i < |docs| ==> docs[i] in log && docs[i].storable
  }

  function CursorAt(log: seq<Event>, k: nat): Option<int>
    requires k <= |log|
  {
    if k == 0 then None else Some(log[k - 1].token)
  }

  /** The cursor stands after the first `processedCount` events of the log, and the collection has only grown. */
  ghost predicate Inv(log: seq<Event>, start: seq<Event>, s: State) {
    && s.processedCount <= |log| && s.cursor == CursorAt(log, s.processedCount)
    && UniqueTokens(s.docs) && Grown(start, s.docs, log)
  }

  /** Every storable event up to the cursor is there. */
  ghost predicate Complete(log: seq<Event>, s: State)
    requires s.processedCount <= |log|
  {
    AllStored(s.docs, log[..s.processedCount])
  }

  lemma {:induction false} AfterDropsPrefix(log: seq<Event>, k: nat, cursor: Option<int>)
    requires Ordered(log) && k <= |log|
    requires forall i :: 0 <= i < k ==> cursor.Some? && log[i].token <= cursor.value
    requires forall i :: k <= i < |log| ==> cursor.None? || cursor.value < log[i].token
    ensures After(log, cursor) == log[k..]
  {
    if k == 0 {
      assert log[0..] == log;
    } else {
      var rest := log[1..];
      assert forall i :: 0 <= i < |rest| ==> rest[i] == log[i + 1];
      assert log[0].token <= cursor.value;
      AfterDropsPrefix(rest, k - 1, cursor);
      assert rest[k - 1..] == log[k..];
    }
  }

  /** The server answers the stretch of the log that follows the cursor. */
  lemma PageFollows(log: seq<Event>, k: nat, visible: nat, page: nat)
    requires Ordered(log) && k <= |log|
    ensures var events := GetEvents(log, CursorAt(log, k), visible, page);
            && |events| <= BATCH_SIZE && k + |events| <= |log| && events == log[k..k + |events|]
            && (events == [] <==> page == 0 || Min(visible, |log|) <= k)
  {
    var v := Min(visible, |log|);
    var seen := log[..v];
    AfterDropsPrefix(seen, Min(k, v), CursorAt(log, k));
    assert After(seen, CursorAt(log, k)) == seen[Min(k, v)..];
  }

  // ----- One insert -----

  lemma InsertKeeps(docs: seq<Event>, e: Event)
    requires UniqueTokens(docs)
    ensures UniqueTokens(Insert(docs, e)) && docs <= Insert(docs, e)
    ensures forall token :: Has(Insert(docs, e), token) <==> Has(docs, token) || (e.storable && token == e.token)
  {
    var r := Insert(docs, e);
    if r != docs {
      assert r[|docs|] == e;
      forall token | Has(docs, token) ensures Has(r, token) {
        StillThere(docs, r, token);
      }
    }
  }

  lemma StillThere(docs: seq<Event>, more: seq<Event>, token: int)
    requires docs <= more && Has(docs, token)
    ensures Has(more, token)
  {
    var i :| 0 <= i < |docs| && docs[i].token == token;
    assert more[i].token == token;
  }

  /** A storable document with this token is reached from position i on. */
  predicate Brings(events: seq<Event>, how: Insertion, i: nat, token: int)
    decreases |events| - i
  {
    i < |events| &&
    ((Reaches(how, i) && events[i].storable && events[i].token == token) || Brings(events, how, i + 1, token))
  }

  /** An insert of either kind adds exactly the tokens of the storable documents it reached, each once. */
  lemma {:induction false} InsertFromKeeps(docs: seq<Event>, events: seq<Event>, how: Insertion, i: nat,
                                           log: seq<Event>)
    requires UniqueTokens(docs) && i <= |events| && forall j :: 0 <= j < |events| ==> events[j] in log
    ensures var r := InsertFrom(docs, events, how, i);
            && UniqueTokens(r) && Grown(docs, r, log)
            && forall token :: Has(r, token) <==> Has(docs, token) || Brings(events, how, i, token)
    decreases |events| - i
  {
    hide Has, UniqueTokens, Reaches;
    if i < |events| {
      var next := if Reaches(how, i) then Insert(docs, events[i]) else docs;
      InsertKeeps(docs, events[i]);
      InsertFromKeeps(next, events, how, i + 1, log);
    }
  }

  lemma {:induction false} BringsExactly(events: seq<Event>, how: Insertion, i: nat, j: nat)
    requires Ordered(events) && i <= |events| && j < |events|
    ensures Brings(events, how, i, events[j].token) <==> i <= j && Reaches(how, j) && events[j].storable
    decreases |events| - i
  {
    hide Reaches;
    if i < |events| {
      BringsExactly(events, how, i + 1, j);
    }
  }

  lemma {:induction false} BringsNothingElse(events: seq<Event>, how: Insertion, i: nat, token: int)
    requires i <= |events| && forall j :: 0 <= j < |events| ==> events[j].token != token
    ensures !Brings(events, how, i, token)
    decreases |events| - i
  {
    if i < |events| {
      BringsNothingElse(events, how, i + 1, token);
    }
  }

  // ----- What one turn loses -----

  /** A storable document of the page that met another error and is not in the collection. */
  predicate FailsUnstored(docs: seq<Event>, events: seq<Event>, failing: set<nat>, i: nat) {
    i < |events| && i in failing && events[i].storable && !Has(docs, events[i].token)
  }

  /** The document is a duplicate, and the driver comes to its error. */
  predicate DuplicateAt(docs: seq<Event>, events: seq<Event>, failing: set<nat>, j: nat) {
    j < |events| && j !in failing && events[j].storable && Has(docs, events[j].token)
  }

  /** The errors are swallowed: before every storable document that fails otherwise stands a duplicate. */
  ghost predicate Hidden(docs: seq<Event>, events: seq<Event>, failing: set<nat>) {
    forall i: nat :: i < |events| && i in failing && events[i].storable ==> DuplicateBefore(docs, events, failing, i)
  }

  ghost predicate DuplicateBefore(docs: seq<Event>, events: seq<Event>, failing: set<nat>, i: nat) {
    exists j: nat :: j < i && DuplicateAt(docs, events, failing, j)
  }

  /** Inserting other tokens of the page does not turn later ones into duplicates. */
  lemma {:induction false} FirstErrorIs(docs: seq<Event>, now: seq<Event>, events: seq<Event>, failing: set<nat>,
                                        i: nat)
    requires Ordered(events) && i <= |events|
    requires forall j: nat :: i <= j < |events| ==> (Has(now, events[j].token) <==> Has(docs, events[j].token))
    requires forall j: nat :: j < i ==> ErrorOn(docs, events[j], j in failing) == None
    ensures FirstError(now, events, failing, i) != Some(OtherError) <==> Hidden(docs, events, failing)
    decreases |events| - i
  {
    if i < |events| {
      var error := ErrorOn(docs, events[i], i in failing);
      if error == None {
        FirstErrorStep(docs, now, events, failing, i);
        FirstErrorIs(docs, Insert(now, events[i]), events, failing, i + 1);
      } else if error == Some(DuplicateKey) {
        assert DuplicateAt(docs, events, failing, i);
        forall k: nat | k < |events| && k in failing && events[k].storable
          ensures DuplicateBefore(docs, events, failing, k) {
          assert ErrorOn(docs, events[k], k in failing) != None;
        }
      } else {
        assert !DuplicateBefore(docs, events, failing, i);
      }
    }
  }

  lemma FirstErrorStep(docs: seq<Event>, now: seq<Event>, events: seq<Event>, failing: set<nat>, i: nat)
    requires Ordered(events) && i < |events|
    requires forall j: nat :: i <= j < |events| ==> (Has(now, events[j].token) <==> Has(docs, events[j].token))
    ensures forall j: nat :: i < j < |events| ==>
              (Has(Insert(now, events[i]), events[j].token) <==> Has(docs, events[j].token))
  {
    forall j: nat | i < j < |events|
      ensures Has(Insert(now, events[i]), events[j].token) <==> Has(now, events[j].token) {
      var r := Insert(now, events[i]);
      if Has(now, events[j].token) {
        StillThere(now, r, events[j].token);
      }
    }
  }

  /** The worker goes on after an insert exactly if it ran and its errors are swallowed. */
  lemma GoesOnExactly(docs: seq<Event>, events: seq<Event>, how: Insertion)
    requires Ordered(events)
    ensures GoesOn(docs, events, how) <==> how.Ran? && Hidden(docs, events, how.failing)
  {
    if how.Ran? {
      FirstErrorIs(docs, docs, events, how.failing, 0);
    }
  }

  /** The turn goes on past a storable event that it has not stored. */
  ghost predicate Loses(log: seq<Event>, s: State, a: Attempt) {
    && !s.finished && a.Fetched? && a.insertion.Ran?
    && var events := GetEvents(log, s.cursor, a.visible, a.page);
       Hidden(s.docs, events, a.insertion.failing) &&
       exists i: nat :: FailsUnstored(s.docs, events, a.insertion.failing, i)
  }

  /** What an insert of the page after the cursor changes: within the page, what it reached; else nothing. */
  lemma PageInserted(log: seq<Event>, k: nat, docs: seq<Event>, events: seq<Event>, how: Insertion, i: nat)
    requires Ordered(log) && k + |events| <= |log| && events == log[k..k + |events|] && i < |log| && UniqueTokens(docs)
    ensures Has(InsertFrom(docs, events, how, 0), log[i].token) <==>
            Has(docs, log[i].token) || (k <= i < k + |events| && Reaches(how, i - k) && log[i].storable)
  {
    assert forall j :: 0 <= j < |events| ==> events[j] == log[k + j];
    InsertFromKeeps(docs, events, how, 0, log);
    hide InsertFrom, Has, UniqueTokens, Reaches, Brings;
    if k <= i < k + |events| {
      BringsExactly(events, how, 0, i - k);
    } else {
      BringsNothingElse(events, how, 0, log[i].token);
    }
  }

  lemma GrownTwice(start: seq<Event>, docs: seq<Event>, more: seq<Event>, log: seq<Event>)
    requires Grown(start, docs, log) && Grown(docs, more, log)
    ensures Grown(start, more, log) && docs <= more
  {
    forall i | |start| <= i < |docs| ensures more[i] == docs[i] {
    }
  }

  lemma StepKeepsInv(log: seq<Event>, start: seq<Event>, s: State, a: Attempt)
    requires Ordered(log) && Inv(log, start, s)
    ensures var t := Step(log, s, a);
            Inv(log, start, t) && s.docs <= t.docs &&
              s.processedCount <= t.processedCount <= s.processedCount + BATCH_SIZE
  {
    if !s.finished && a.Fetched? {
      var k := s.processedCount;
      var events := GetEvents(log, s.cursor, a.visible, a.page);
      PageFollows(log, k, a.visible, a.page);
      hide GetEvents, Ordered, GoesOn;
      if events != [] {
        assert forall j :: 0 <= j < |events| ==> events[j] == log[k + j];
        InsertFromKeeps(s.docs, events, a.insertion, 0, log);
        hide InsertFrom, UniqueTokens;
        GrownTwice(start, s.docs, InsertFrom(s.docs, events, a.insertion, 0), log);
      }
    }
  }

  /** A turn keeps the collection complete up to the cursor exactly if it does not lose so; and what was not
      there before is not made up for. */
  lemma CompleteExactly(log: seq<Event>, start: seq<Event>, s: State, a: Attempt)
    requires Ordered(log) && Inv(log, start, s)
    ensures Step(log, s, a).processedCount <= |log|
    ensures Complete(log, Step(log, s, a)) <==> Complete(log, s) && !Loses(log, s, a)
  {
    StepKeepsInv(log, start, s, a);
    if !s.finished && a.Fetched? {
      var events := GetEvents(log, s.cursor, a.visible, a.page);
      PageFollows(log, s.processedCount, a.visible, a.page);
      hide GetEvents, Inv;
      if events == [] {
        assert !Loses(log, s, a);
      } else {
        PageOrdered(log, s.processedCount, events);
        GoesOnExactly(s.docs, events, a.insertion);
        PageComplete(log, s, a, events);
      }
    }
  }

  lemma PageOrdered(log: seq<Event>, k: nat, events: seq<Event>)
    requires Ordered(log) && k + |events| <= |log| && events == log[k..k + |events|]
    ensures Ordered(events)
  {
    assert forall j :: 0 <= j < |events| ==> events[j] == log[k + j];
  }

  lemma PageComplete(log: seq<Event>, s: State, a: Attempt, events: seq<Event>)
    requires Ordered(log) && UniqueTokens(s.docs) && s.processedCount + |events| <= |log| && !s.finished && a.Fetched?
    requires events == GetEvents(log, s.cursor, a.visible, a.page) != []
    requires events == log[s.processedCount..s.processedCount + |events|]
    requires GoesOn(s.docs, events, a.insertion) <==> a.insertion.Ran? && Hidden(s.docs, events, a.insertion.failing)
    ensures Step(log, s, a).processedCount <= |log|
    ensures Complete(log, Step(log, s, a)) <==> Complete(log, s) && !Loses(log, s, a)
  {
    hide GetEvents, GoesOn, Hidden;
    var k, t := s.processedCount, Step(log, s, a);
    forall i: nat | i < |log|
      ensures Has(t.docs, log[i].token) <==>
              Has(s.docs, log[i].token) || (k <= i < k + |events| && Reaches(a.insertion, i - k) && log[i].storable)
    {
      PageInserted(log, k, s.docs, events, a.insertion, i);
    }
    hide InsertFrom, Has, UniqueTokens, Ordered;
    assert Complete(log, s) <==> forall i: nat :: i < k && log[i].storable ==> Has(s.docs, log[i].token) by {
      CompleteMeans(log, s);
    }
    assert Complete(log, t) <==>
           forall i: nat :: i < t.processedCount && log[i].storable ==> Has(t.docs, log[i].token) by {
      CompleteMeans(log, t);
    }
    hide Complete;
    if GoesOn(s.docs, events, a.insertion) {
      forall i: nat | i < |events|
        ensures FailsUnstored(s.docs, events, a.insertion.failing, i) <==>
                log[k + i].storable && !Has(t.docs, log[k + i].token)
      {
        assert events[i] == log[k + i];
      }
      hide FailsUnstored;
      if Complete(log, s) && !Loses(log, s, a) {
        forall i: nat | i < k + |events| && log[i].storable ensures Has(t.docs, log[i].token) {
          if i >= k {
            assert !FailsUnstored(s.docs, events, a.insertion.failing, i - k);
          }
        }
      }
    }
  }

  lemma CompleteMeans(log: seq<Event>, s: State)
    requires s.processedCount <= |log|
    ensures Complete(log, s) <==> forall i: nat :: i < s.processedCount && log[i].storable ==> Has(s.docs, log[i].token)
  {
    var seen := log[..s.processedCount];
    assert forall i: nat :: i < |seen| ==> seen[i] == log[i];
  }

  // ----- Runs -----

  /** Some turn of the run loses an event. */
  ghost predicate LosesSome(log: seq<Event>, s: State, attempts: seq<Attempt>)
    decreases |attempts|
  {
    attempts != [] && (Loses(log, s, attempts[0]) || LosesSome(log, Step(log, s, attempts[0]), attempts[1..]))
  }

  /** The attempts that fetch and insert without a failure. */
  function Clean(attempts: seq<Attempt>): nat {
    if attempts == [] then 0
    else
      var a := attempts[0];
      (if a.Fetched? && a.page > 0 && a.insertion == Ran({}) then 1 else 0) + Clean(attempts[1..])
  }

  /** The turn that ends the run: its page was empty, at the end of what the server held or because the server
      chose so. */
  ghost predicate FinishesAt(log: seq<Event>, s: State, attempts: seq<Attempt>, i: nat) {
    && i < |attempts| && !Run(log, s, attempts[..i]).finished && Run(log, s, attempts[..i + 1]).finished
    && attempts[i].Fetched?
    && (attempts[i].page == 0 || Min(attempts[i].visible, |log|) <= Run(log, s, attempts).processedCount)
  }

  lemma FinishedStays(log: seq<Event>, s: State, attempts: seq<Attempt>)
    requires s.finished
    ensures Run(log, s, attempts) == s && !LosesSome(log, s, attempts)
    decreases |attempts|
  {
    if attempts != [] {
      FinishedStays(log, s, attempts[1..]);
    }
  }

  lemma {:induction false} NothingFails(docs: seq<Event>, events: seq<Event>, i: nat)
    ensures FirstError(docs, events, {}, i) != Some(OtherError)
    decreases |events| - i
  {
    if i < |events| {
      NothingFails(Insert(docs, events[i]), events, i + 1);
    }
  }

  /** How far one turn comes. */
  lemma TurnProgress(log: seq<Event>, start: seq<Event>, s: State, a: Attempt)
    requires Ordered(log) && Inv(log, start, s) && !s.finished
    ensures var t := Step(log, s, a);
            && (t.finished ==>
                  a.Fetched? && (a.page == 0 || Min(a.visible, |log|) <= s.processedCount == t.processedCount))
            && (!t.finished ==> s.processedCount + Clean([a]) <= t.processedCount)
  {
    if a.Fetched? {
      PageFollows(log, s.processedCount, a.visible, a.page);
      hide GetEvents;
      if a.insertion == Ran({}) {
        NothingFails(s.docs, GetEvents(log, s.cursor, a.visible, a.page), 0);
      }
    }
  }

  /** The rest of a run, seen from before its first turn. */
  lemma FinishesLater(log: seq<Event>, s: State, attempts: seq<Attempt>, i: nat)
    requires attempts != [] && FinishesAt(log, Step(log, s, attempts[0]), attempts[1..], i)
    ensures FinishesAt(log, s, attempts, i + 1)
  {
    hide Step;
    assert attempts[..i + 1][1..] == attempts[1..][..i] && attempts[..i + 2][1..] == attempts[1..][..i + 1];
    assert attempts[1..][i] == attempts[i + 1];
  }

  lemma FinishesNow(log: seq<Event>, s: State, attempts: seq<Attempt>)
    requires attempts != [] && !s.finished && Step(log, s, attempts[0]).finished && attempts[0].Fetched?
    requires attempts[0].page == 0 || Min(attempts[0].visible, |log|) <= Run(log, s, attempts).processedCount
    ensures FinishesAt(log, s, attempts, 0)
  {
    hide Step, Min;
    assert attempts[..1][1..] == [];
    assert Run(log, s, attempts[..1]) == Run(log, Step(log, s, attempts[0]), []);
  }

  /** With fetches and inserts failing at any point, even partly applied: no event is stored twice, what was
      stored stays, only storable events of the log are added, and the count is the number of events up to the
      cursor. All storable events up to the cursor are there exactly if they were at the start and no turn loses
      one. A run ends on an empty page, and ends before its clean turns outnumber the events. */
  lemma {:induction false} EveryRun(log: seq<Event>, start: seq<Event>, s: State, attempts: seq<Attempt>)
    requires Ordered(log) && Inv(log, start, s) && !s.finished
    ensures var t := Run(log, s, attempts);
            && Inv(log, start, t) && s.docs <= t.docs && s.processedCount <= t.processedCount
            && (Complete(log, t) <==> Complete(log, s) && !LosesSome(log, s, attempts))
            && (t.finished ==> exists i: nat :: FinishesAt(log, s, attempts, i))
            && (!t.finished ==> s.processedCount + Clean(attempts) <= t.processedCount)
    decreases |attempts|
  {
    if attempts != [] {
      var a, rest := attempts[0], attempts[1..];
      var u := Step(log, s, a);
      StepKeepsInv(log, start, s, a);
      CompleteExactly(log, start, s, a);
      TurnProgress(log, start, s, a);
      hide Step, Inv, Complete, Loses, Min, FinishesAt, Ordered;
      if u.finished {
        FinishedStays(log, u, rest);
        FinishesNow(log, s, attempts);
      } else {
        EveryRun(log, start, u, rest);
        if Run(log, u, rest).finished {
          var i: nat :| FinishesAt(log, u, rest, i);
          FinishesLater(log, s, attempts, i);
        }
      }
    }
  }

  // ----- Whole rebuilds -----

  lemma NothingElseIsAdded(log: seq<Event>, start: seq<Event>, docs: seq<Event>, i: nat)
    requires Ordered(log) && Grown(start, docs, log) && i < |log| && Has(docs, log[i].token)
    ensures log[i].storable || Has(start, log[i].token)
  {
    var d :| 0 <= d < |docs| && docs[d].token == log[i].token;
    if d < |start| {
      assert start[d] == docs[d];
    } else {
      var j :| 0 <= j < |log| && log[j] == docs[d];
    }
  }

  /** The collection has exactly the storable events of the log, and what was there before. */
  ghost predicate Rebuilt(log: seq<Event>, start: seq<Event>, docs: seq<Event>) {
    forall i :: 0 <= i < |log| ==> (Has(docs, log[i].token) <==> log[i].storable || Has(start, log[i].token))
  }

  lemma RebuiltExactly(log: seq<Event>, start: seq<Event>, s: State)
    requires Ordered(log) && Inv(log, start, s) && s.processedCount == |log|
    ensures Rebuilt(log, start, s.docs) <==> Complete(log, s)
  {
    CompleteMeans(log, s);
    hide Complete, Ordered;
    forall i: nat | i < |log|
      ensures Has(s.docs, log[i].token) ==> log[i].storable || Has(start, log[i].token)
      ensures Has(start, log[i].token) ==> Has(s.docs, log[i].token)
    {
      if Has(s.docs, log[i].token) {
        NothingElseIsAdded(log, start, s.docs, i);
      }
      if Has(start, log[i].token) {
        StillThere(start, s.docs, log[i].token);
      }
    }
  }

  /** The server holds the whole log and never answers an empty page while events remain. */
  predicate ServesAll(log: seq<Event>, attempts: seq<Attempt>) {
    forall i :: 0 <= i < |attempts| && attempts[i].Fetched? ==> attempts[i].visible >= |log| && attempts[i].page > 0
  }

  /** With such a server a finished run has counted every event, and has stored exactly those that pass the schema if
      and only if no turn lost one; and it finishes before its clean turns outnumber the events. */
  lemma RebuildIsComplete(log: seq<Event>, start: seq<Event>, attempts: seq<Attempt>)
    requires Ordered(log) && UniqueTokens(start) && ServesAll(log, attempts)
    ensures var s := State(start, None, 0, false);
            var t := Run(log, s, attempts);
            && UniqueTokens(t.docs) && Grown(start, t.docs, log)
            && (t.finished ==>
                  t.processedCount == |log| && (Rebuilt(log, start, t.docs) <==> !LosesSome(log, s, attempts)))
            && (Clean(attempts) > |log| ==> t.finished)
  {
    var s := State(start, None, 0, false);
    var t := Run(log, s, attempts);
    CompleteMeans(log, s);
    EveryRun(log, start, s, attempts);
    if t.finished {
      var i: nat :| FinishesAt(log, s, attempts, i);
      hide Run, Complete, LosesSome, Ordered, Rebuilt;
      assert t.processedCount == |log|;
      RebuiltExactly(log, start, t);
    }
  }

  /** It does happen: a duplicate, as after a partly applied insert, hides the failure of the next document. The run
      finishes with both events counted and one stored, as it was before. */
  lemma DuplicateHidesFailure(e0: Event, e1: Event)
    requires e0.token < e1.token && e0.storable && e1.storable
    ensures Run([e0, e1], State([e0], None, 0, false), [Fetched(2, 2, Ran({1})), Fetched(2, 2, Ran({}))])
            == State([e0], Some(e1.token), 2, true)
  {
    var log, s := [e0, e1], State([e0], None, 0, false);
    var a, b := Fetched(2, 2, Ran({1})), Fetched(2, 2, Ran({}));
    PageFollows(log, 0, 2, 2);
    PageFollows(log, 2, 2, 2);
    assert log[0..2] == log && GetEvents(log, None, 2, 2) == log && GetEvents(log, Some(e1.token), 2, 2) == [];
    hide GetEvents;
    assert [e0][0] == e0 && Has([e0], e0.token);
    assert InsertFrom([e0], log, Ran({1}), 2) == [e0];
    assert InsertFrom([e0], log, Ran({1}), 1) == [e0];
    assert InsertFrom([e0], log, Ran({1}), 0) == [e0];
    assert ErrorOn([e0], log[0], 0 in {1}) == Some(DuplicateKey);
    var t := Step(log, s, a);
    assert t == State([e0], Some(e1.token), 2, false);
    assert Step(log, t, b) == t.(finished := true);
    hide Step;
    assert Run(log, t, [b]) == Run(log, Step(log, t, b), []);
    assert [a, b][1..] == [b];
  }

  // ----- The worker -----

  /** The collection of events, with its unique index. */
  class SorobanEvents {
    var docs: seq<Event>

    constructor (docs: seq<Event>)
      ensures this.docs == docs
    {
      this.docs := docs;
    }

    /** An unordered insert: the error that it throws, if any, has the code of its first write error. */
    method InsertMany(events: seq<Event>, how: Insertion) returns (error: Option<WriteError>)
      modifies this
      ensures docs == InsertFrom(old(docs), events, how, 0)
      ensures error == if how.Ran? then FirstError(old(docs), events, how.failing, 0) else Some(OtherError)
    {
      error := None;
      var i := 0;
      ghost var seen := docs;
      while i < |events|
        invariant i <= |events| && InsertFrom(docs, events, how, i) == InsertFrom(old(docs), events, how, 0)
        invariant how.Ran? && error.Some? ==> error == FirstError(old(docs), events, how.failing, 0)
        invariant how.Ran? && error.None? ==>
                    docs == seen &&
                    FirstError(seen, events, how.failing, i) == FirstError(old(docs), events, how.failing, 0)
      {
        var e := events[i];
        if how.Ran? && error.None? {
          error := ErrorOn(docs, e, i in how.failing);
        }
        seen := Insert(seen, e);
        if Reaches(how, i) {
          if e.storable && !Has(docs, e.token) {
            docs := docs + [e];
          }
        }
        i := i + 1;
      }
      if how.Interrupted? {
        error := Some(OtherError);
      }
    }
  }

  /** The rebuild loop against a server and a database that behave as the attempts say. */
  method RunHistoricalIndexer(collection: SorobanEvents, log: seq<Event>, attempts: seq<Attempt>)
    returns (currentCursor: Option<int>, processedCount: nat, finished: bool)
    modifies collection
    ensures State(collection.docs, currentCursor, processedCount, finished)
            == Run(log, State(old(collection.docs), None, 0, false), attempts)
  {
    currentCursor, processedCount, finished := None, 0, false;
    var turn := 0;
    while turn < |attempts|
      invariant turn <= |attempts| && !finished
      invariant Run(log, State(collection.docs, currentCursor, processedCount, false), attempts[turn..])
                == Run(log, State(old(collection.docs), None, 0, false), attempts)
    {
      hide FirstError, GetEvents, InsertFrom;
      var attempt := attempts[turn];
      assert attempts[turn..][1..] == attempts[turn + 1..];
      turn := turn + 1;
      if attempt.Fetched? {
        var events := GetEvents(log, currentCursor, attempt.visible, attempt.page);
        if |events| == 0 {
          finished := true;
          FinishedStays(log, State(collection.docs, currentCursor, processedCount, true), attempts[turn..]);
          break;
        }
        var error := collection.InsertMany(events, attempt.insertion);
        if error.None? || error.value.DuplicateKey? {
          processedCount := processedCount + |events|;
          currentCursor := Some(events[|events| - 1].token);
        }
      }
    }
  }
}
