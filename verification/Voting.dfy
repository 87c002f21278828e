/** Token-weighted polls: ballots checked and committed by concurrent requests, and the published result. */
module Voting {
  import Sorting
  import opened Wrappers

  type ProposalId = nat

  datatype Tally = Tally(voteCount: nat, totalPower: nat)

  const NO_VOTES := Tally(0, 0)

  /** A proposal with its denormalised counters; a choice missing from `tally` has none yet. */
  datatype Proposal = Proposal(choices: seq<string>, isOpen: bool, voteCount: nat, totalVotingPower: nat,
                               tally: map<nat, Tally>)

  datatype Vote = Vote(proposal: ProposalId, voter: string, choice: nat, power: nat)

  datatype Store = Store(proposals: map<ProposalId, Proposal>, votes: seq<Vote>)

  /** A call of `castVote`: `choice` as parsed (None for not-a-number), `power` as counted at the time. */
  datatype Request = Request(proposal: ProposalId, voter: string, choice: Option<int>, power: nat)

  datatype Refusal = ProposalNotFound | VotingNotOpen | AlreadyVoted | InvalidChoice | NoPower

  const MIN_VOTING_POWER: nat := 0

  function UpperChar(c: char): char {
    if 'a' <= c <= 'z' then (c as int - 'a' as int + 'A' as int) as char else c
  }

  /** Stellar addresses are ASCII, so this is all of `toUpperCase` that matters. */
  function Upper(s: string): string {
    seq(|s|, i requires 0 <= i < |s| => UpperChar(s[i]))
  }

  function Plus(a: Tally, b: Tally): Tally {
    Tally(a.voteCount + b.voteCount, a.totalPower + b.totalPower)
  }

  predicate HasVoted(votes: seq<Vote>, id: ProposalId, voter: string) {
    exists i :: 0 <= i < |votes| && votes[i].proposal == id && votes[i].voter == voter
  }

  // ----- The steps of castVote -----

  /** Everything before the transaction. */
  function Check(allowZeroPower: bool, s: Store, r: Request): Result<Vote, Refusal> {
    var voter := Upper(r.voter);
    if r.proposal !in s.proposals then Failure(ProposalNotFound)
    else
      var p := s.proposals[r.proposal];
      if !p.isOpen then Failure(VotingNotOpen)
      else if HasVoted(s.votes, r.proposal, voter) then Failure(AlreadyVoted)
      else if r.choice.None? || r.choice.value < 0 || r.choice.value >= |p.choices| then Failure(InvalidChoice)
      else if !allowZeroPower && r.power <= MIN_VOTING_POWER then Failure(NoPower)
      else Success(Vote(r.proposal, voter, r.choice.value, r.power))
  }

  /** Two characters that differ at most in their case. */
  predicate SameLetter(c: char, d: char) {
    || c == d
    || ('a' <= c <= 'z' && c as int - d as int == 'a' as int - 'A' as int)
    || ('a' <= d <= 'z' && d as int - c as int == 'a' as int - 'A' as int)
  }

  /** Two spellings are one voter exactly if they differ at most in case. */
  lemma OneVoterExactly(a: string, b: string)
    ensures Upper(a) == Upper(b) <==> |a| == |b| && forall i :: 0 <= i < |a| ==> SameLetter(a[i], b[i])
  {
    forall i | 0 <= i < |a| && i < |b| ensures Upper(a)[i] == Upper(b)[i] <==> SameLetter(a[i], b[i]) {
    }
  }

  /** The voter has no stored vote on the proposal, under any spelling that is stored. */
  ghost predicate IsNew(votes: seq<Vote>, id: ProposalId, voter: string) {
    forall i :: 0 <= i < |votes| && votes[i].proposal == id ==> votes[i].voter != voter
  }

  predicate IsChoice(p: Proposal, choice: Option<int>) {
    choice.Some? && 0 <= choice.value < |p.choices|
  }

  /** Which ballots pass: those for a proposal that is there and open, by a voter new to it, for one of its choices, and
      with power unless votes without are allowed. The vote carries the ballot's own proposal, choice and power. */
  lemma PassesExactly(allowZeroPower: bool, s: Store, r: Request)
    ensures Check(allowZeroPower, s, r).Success? <==>
            && r.proposal in s.proposals && s.proposals[r.proposal].isOpen
            && IsNew(s.votes, r.proposal, Upper(r.voter)) && IsChoice(s.proposals[r.proposal], r.choice)
            && (allowZeroPower || r.power > 0)
    ensures Check(allowZeroPower, s, r).Success? ==>
              Check(allowZeroPower, s, r).value == Vote(r.proposal, Upper(r.voter), r.choice.value, r.power)
  {
    hide Upper;
  }

  /** And each refusal: it names the first condition that does not hold. */
  lemma RefusedExactly(allowZeroPower: bool, s: Store, r: Request)
    ensures var c, known := Check(allowZeroPower, s, r), r.proposal in s.proposals;
            && (c == Failure(ProposalNotFound) <==> !known)
            && (c == Failure(VotingNotOpen) <==> known && !s.proposals[r.proposal].isOpen)
            && (c == Failure(AlreadyVoted) <==>
                  known && s.proposals[r.proposal].isOpen && !IsNew(s.votes, r.proposal, Upper(r.voter)))
            && (c == Failure(InvalidChoice) <==>
                  known && s.proposals[r.proposal].isOpen && IsNew(s.votes, r.proposal, Upper(r.voter))
                  && !IsChoice(s.proposals[r.proposal], r.choice))
            && (c == Failure(NoPower) <==>
                  known && s.proposals[r.proposal].isOpen && IsNew(s.votes, r.proposal, Upper(r.voter))
                  && IsChoice(s.proposals[r.proposal], r.choice) && !allowZeroPower && r.power == 0)
  {
    hide Upper;
  }

  function TallyOf(p: Proposal, choice: nat): Tally {
    if choice in p.tally then p.tally[choice] else NO_VOTES
  }

  function Increment(p: Proposal, v: Vote): Proposal {
    p.(voteCount := p.voteCount + 1,
       totalVotingPower := p.totalVotingPower + v.power,
       tally := p.tally[v.choice := Plus(TallyOf(p, v.choice), Tally(1, v.power))])
  }

  /** The transaction; the unique index on (proposal, voter) aborts it. */
  function Commit(s: Store, v: Vote): Option<Store> {
    if HasVoted(s.votes, v.proposal, v.voter) then None
    else Some(Store(if v.proposal in s.proposals then s.proposals[v.proposal := Increment(s.proposals[v.proposal], v)]
                    else s.proposals,
                    s.votes + [v]))
  }

  // ----- Concurrent requests -----

  /** The database, and the ballots that passed their checks and have not finished their transaction. */
  datatype Machine = Machine(store: Store, pending: multiset<Vote>)

  datatype Event =
    | Create(id: ProposalId, choices: seq<string>)
    | SetOpen(id: ProposalId, isOpen: bool)
    | Ballot(request: Request)
    | Commits(vote: Vote)
    | Fails(vote: Vote)

  function Step(allowZeroPower: bool, m: Machine, e: Event): Machine {
    match e
    case Create(id, choices) =>
      if id in m.store.proposals then m
      else m.(store := m.store.(proposals := m.store.proposals[id := Proposal(choices, false, 0, 0, map[])]))
    case SetOpen(id, isOpen) =>
      if id !in m.store.proposals then m
      else m.(store := m.store.(proposals := m.store.proposals[id := m.store.proposals[id].(isOpen := isOpen)]))
    case Ballot(request) =>
      (match Check(allowZeroPower, m.store, request)
       case Failure(_) => m
       case Success(v) => m.(pending := m.pending + multiset{v}))
    case Commits(v) =>
      if v !in m.pending then m
      else
        var t := m.(pending := m.pending - multiset{v});
        (match Commit(m.store, v)
         case None => t
         case Some(s) => t.(store := s))
    case Fails(v) => m.(pending := m.pending - multiset{v})
  }

  function Run(allowZeroPower: bool, m: Machine, es: seq<Event>): Machine
    decreases |es|
  {
    if es == [] then m else Run(allowZeroPower, Step(allowZeroPower, m, es[0]), es[1..])
  }

  const EMPTY := Machine(Store(map[], []), multiset{})

  /** How a ballot in flight ends: it is in flight no more; its vote is stored exactly if its transaction commits and
      the voter is still new to the proposal; a transaction that fails leaves the database alone. */
  lemma BallotEnds(allowZeroPower: bool, m: Machine, v: Vote)
    requires v in m.pending
    ensures var t := Step(allowZeroPower, m, Commits(v));
            && t.pending == m.pending - multiset{v}
            && t.store.votes == if IsNew(m.store.votes, v.proposal, v.voter) then m.store.votes + [v] else m.store.votes
    ensures Step(allowZeroPower, m, Fails(v)) == Machine(m.store, m.pending - multiset{v})
  {
    hide Increment;
  }

  // ----- What the counters mean -----

  /** All votes on a proposal, or those on one choice. */
  datatype Scope = Overall | On(choice: nat)

  predicate For(v: Vote, id: ProposalId, scope: Scope) {
    v.proposal == id && (scope.Overall? || v.choice == scope.choice)
  }

  function Add(t: Tally, v: Vote, id: ProposalId, scope: Scope): Tally {
    if For(v, id, scope) then Plus(t, Tally(1, v.power)) else t
  }

  /** The votes on a proposal, or on one of its choices, added up. */
  function Sum(votes: seq<Vote>, id: ProposalId, scope: Scope): Tally {
    if votes == [] then NO_VOTES
    else
      Add(Sum(votes[..|votes| - 1], id, scope), votes[|votes| - 1], id, scope)
  }

  ghost predicate OneVoteEach(votes: seq<Vote>) {
    forall i, j :: 0 <= i < j < |votes| && votes[i].proposal == votes[j].proposal ==> votes[i].voter != votes[j].voter
  }

  /** A ballot for an existing choice, under an address in its one spelling. */
  ghost predicate WellFormed(proposals: map<ProposalId, Proposal>, v: Vote) {
    v.proposal in proposals && v.choice < |proposals[v.proposal].choices| && Upper(v.voter) == v.voter
  }

  /** The counters of a proposal are the sums of its votes. */
  ghost predicate CountersAgree(p: Proposal, votes: seq<Vote>, id: ProposalId) {
    && Tally(p.voteCount, p.totalVotingPower) == Sum(votes, id, Overall)
    && forall c: nat :: TallyOf(p, c) == Sum(votes, id, On(c))
  }

  ghost predicate AllCountersAgree(s: Store) {
    forall id :: id in s.proposals ==> CountersAgree(s.proposals[id], s.votes, id)
  }

  ghost predicate AllWellFormed(s: Store) {
    forall i :: 0 <= i < |s.votes| ==> WellFormed(s.proposals, s.votes[i])
  }

  ghost predicate StoreInv(s: Store) {
    OneVoteEach(s.votes) && AllWellFormed(s) && AllCountersAgree(s)
  }

  ghost predicate Inv(m: Machine) {
    StoreInv(m.store) && forall v :: v in m.pending ==> WellFormed(m.store.proposals, v)
  }

  /** What the sums are: each vote on the proposal, or on the choice of it, adds one and its power. */
  lemma SumsAre(votes: seq<Vote>, v: Vote, id: ProposalId, c: nat)
    ensures Sum([], id, Overall) == Sum([], id, On(c)) == Tally(0, 0)
    ensures var all, on := Sum(votes, id, Overall), Sum(votes, id, On(c));
            && Sum(votes + [v], id, Overall)
               == (if v.proposal == id then Tally(all.voteCount + 1, all.totalPower + v.power) else all)
            && Sum(votes + [v], id, On(c))
               == (if v.proposal == id && v.choice == c then Tally(on.voteCount + 1, on.totalPower + v.power) else on)
  {
    SumOfNone([], id, Overall);
    SumOfNone([], id, On(c));
    hide Sum;
    SumSnoc(votes, v, id, Overall);
    SumSnoc(votes, v, id, On(c));
  }

  lemma SumSnoc(votes: seq<Vote>, v: Vote, id: ProposalId, scope: Scope)
    ensures Sum(votes + [v], id, scope) == Add(Sum(votes, id, scope), v, id, scope)
  {
    assert (votes + [v])[..|votes|] == votes;
  }

  /** Votes for others do not count. */
  lemma {:induction false} SumOfNone(votes: seq<Vote>, id: ProposalId, scope: Scope)
    requires forall i :: 0 <= i < |votes| ==> !For(votes[i], id, scope)
    ensures Sum(votes, id, scope) == NO_VOTES
  {
    if votes != [] {
      SumOfNone(votes[..|votes| - 1], id, scope);
      assert !For(votes[|votes| - 1], id, scope);
    }
  }

  lemma UpperTwice(s: string)
    ensures Upper(Upper(s)) == Upper(s)
  {
  }

  /** A vote is counted where it belongs, and nowhere else. */
  lemma VoteIsCounted(p: Proposal, votes: seq<Vote>, id: ProposalId, v: Vote)
    requires CountersAgree(p, votes, id)
    ensures CountersAgree(if v.proposal == id then Increment(p, v) else p, votes + [v], id)
  {
    hide Sum;
    var q := if v.proposal == id then Increment(p, v) else p;
    SumSnoc(votes, v, id, Overall);
    forall c: nat ensures TallyOf(q, c) == Sum(votes + [v], id, On(c)) {
      SumSnoc(votes, v, id, On(c));
    }
  }

  lemma CommitKeeps(s: Store, v: Vote)
    requires StoreInv(s) && WellFormed(s.proposals, v) && !HasVoted(s.votes, v.proposal, v.voter)
    ensures StoreInv(Commit(s, v).value)
    ensures forall w :: WellFormed(s.proposals, w) ==> WellFormed(Commit(s, v).value.proposals, w)
  {
    hide Upper, Sum, CountersAgree;
    forall id | id in s.proposals {
      VoteIsCounted(s.proposals[id], s.votes, id, v);
    }
  }

  lemma CreateKeeps(allowZeroPower: bool, m: Machine, id: ProposalId, choices: seq<string>)
    requires StoreInv(m.store) && id !in m.store.proposals
    ensures var t := Step(allowZeroPower, m, Create(id, choices)).store;
            StoreInv(t) && forall w :: WellFormed(m.store.proposals, w) ==> WellFormed(t.proposals, w)
  {
    hide Upper;
    assert forall i :: 0 <= i < |m.store.votes| ==> WellFormed(m.store.proposals, m.store.votes[i]);
    forall c { SumOfNone(m.store.votes, id, c); }
    hide Sum;
  }

  lemma OpenKeeps(allowZeroPower: bool, m: Machine, id: ProposalId, isOpen: bool)
    requires StoreInv(m.store) && id in m.store.proposals
    ensures var t := Step(allowZeroPower, m, SetOpen(id, isOpen)).store;
            StoreInv(t) && forall w :: WellFormed(m.store.proposals, w) ==> WellFormed(t.proposals, w)
  {
    hide Sum, Upper;
    var p := m.store.proposals[id];
    assert CountersAgree(p, m.store.votes, id);
    assert forall c: nat :: TallyOf(p.(isOpen := isOpen), c) == TallyOf(p, c);
  }

  lemma BallotKeeps(allowZeroPower: bool, m: Machine, r: Request)
    requires Inv(m)
    ensures Inv(Step(allowZeroPower, m, Ballot(r)))
  {
    hide StoreInv, HasVoted, Upper;
    UpperTwice(r.voter);
  }

  lemma CommitsKeeps(allowZeroPower: bool, m: Machine, v: Vote)
    requires Inv(m)
    ensures Inv(Step(allowZeroPower, m, Commits(v))) && m.store.votes <= Step(allowZeroPower, m, Commits(v)).store.votes
  {
    if v in m.pending && !HasVoted(m.store.votes, v.proposal, v.voter) {
      CommitKeeps(m.store, v);
    }
    hide StoreInv, WellFormed, HasVoted, Increment;
  }

  lemma StepKeepsInv(allowZeroPower: bool, m: Machine, e: Event)
    requires Inv(m)
    ensures Inv(Step(allowZeroPower, m, e))
    ensures m.store.votes <= Step(allowZeroPower, m, e).store.votes
  {
    hide StoreInv, WellFormed, Check, Commit;
    match e {
      case Create(id, choices) =>
        if id !in m.store.proposals {
          CreateKeeps(allowZeroPower, m, id, choices);
        }
      case SetOpen(id, isOpen) =>
        if id in m.store.proposals {
          OpenKeeps(allowZeroPower, m, id, isOpen);
        }
      case Ballot(request) =>
        BallotKeeps(allowZeroPower, m, request);
      case Commits(v) =>
        CommitsKeeps(allowZeroPower, m, v);
      case Fails(_) =>
    }
  }

  /** In every interleaving of checks and transactions: one vote a voter and proposal, and all counters equal
      to the sums of the stored votes, none of which is ever taken back. */
  lemma {:induction false} EveryRun(allowZeroPower: bool, m: Machine, es: seq<Event>)
    requires Inv(m)
    ensures Inv(Run(allowZeroPower, m, es)) && m.store.votes <= Run(allowZeroPower, m, es).store.votes
    decreases |es|
  {
    if es != [] {
      StepKeepsInv(allowZeroPower, m, es[0]);
      EveryRun(allowZeroPower, Step(allowZeroPower, m, es[0]), es[1..]);
    }
  }

  lemma EveryPoll(allowZeroPower: bool, es: seq<Event>)
    ensures var s := Run(allowZeroPower, EMPTY, es).store;
            && OneVoteEach(s.votes)
            && (forall i :: 0 <= i < |s.votes| ==> WellFormed(s.proposals, s.votes[i]))
            && forall id :: id in s.proposals ==> CountersAgree(s.proposals[id], s.votes, id)
  {
    EveryRun(allowZeroPower, EMPTY, es);
  }

  // ----- Every vote was checked -----

  lemma {:induction false} RunSnoc(allowZeroPower: bool, m: Machine, es: seq<Event>)
    requires es != []
    ensures Run(allowZeroPower, m, es) == Step(allowZeroPower, Run(allowZeroPower, m, es[..|es| - 1]), es[|es| - 1])
    decreases |es|
  {
    hide Step;
    var n := |es| - 1;
    if n > 0 {
      RunSnoc(allowZeroPower, Step(allowZeroPower, m, es[0]), es[1..]);
      assert es[1..][..n - 1] == es[..n][1..];
    }
  }

  /** The state in which event k of a run from the empty database happens. */
  function Before(allowZeroPower: bool, es: seq<Event>, k: nat): Machine
    requires k <= |es|
  {
    Run(allowZeroPower, EMPTY, es[..k])
  }

  /** Event k is a ballot that passed the checks, in the state it came in, as this vote. */
  predicate CheckedAt(allowZeroPower: bool, es: seq<Event>, k: nat, v: Vote) {
    k < |es| && es[k].Ballot? && Check(allowZeroPower, Before(allowZeroPower, es, k).store, es[k].request) == Success(v)
  }

  ghost predicate WasChecked(allowZeroPower: bool, es: seq<Event>, v: Vote) {
    exists k: nat :: CheckedAt(allowZeroPower, es, k, v)
  }

  lemma CheckedBefore(allowZeroPower: bool, es: seq<Event>, n: nat, v: Vote)
    requires n <= |es| && WasChecked(allowZeroPower, es[..n], v)
    ensures WasChecked(allowZeroPower, es, v)
  {
    hide Run, Check;
    var k: nat :| CheckedAt(allowZeroPower, es[..n], k, v);
    assert es[..n][..k] == es[..k] && es[..n][k] == es[k];
    assert CheckedAt(allowZeroPower, es, k, v);
  }

  /** What one step adds to the ballots in flight and to the stored votes. */
  lemma StepAdds(allowZeroPower: bool, m: Machine, e: Event)
    ensures var t := Step(allowZeroPower, m, e);
            && (forall v :: v in t.pending ==>
                  v in m.pending || (e.Ballot? && Check(allowZeroPower, m.store, e.request) == Success(v)))
            && (t.store.votes == m.store.votes ||
               (e.Commits? && e.vote in m.pending && t.store.votes == m.store.votes + [e.vote]))
  {
    hide Check, HasVoted, Increment;
  }

  lemma {:induction false} AllWereChecked(allowZeroPower: bool, es: seq<Event>)
    ensures var t := Run(allowZeroPower, EMPTY, es);
            && (forall v :: v in t.pending ==> WasChecked(allowZeroPower, es, v))
            && (forall i :: 0 <= i < |t.store.votes| ==> WasChecked(allowZeroPower, es, t.store.votes[i]))
    decreases |es|
  {
    if es != [] {
      var n := |es| - 1;
      var m, t := Run(allowZeroPower, EMPTY, es[..n]), Run(allowZeroPower, EMPTY, es);
      AllWereChecked(allowZeroPower, es[..n]);
      RunSnoc(allowZeroPower, EMPTY, es);
      StepAdds(allowZeroPower, m, es[n]);
      hide Step, Run, Check;
      forall v | WasChecked(allowZeroPower, es[..n], v) ensures WasChecked(allowZeroPower, es, v) {
        CheckedBefore(allowZeroPower, es, n, v);
      }
      hide WasChecked;
      forall v | v in t.pending ensures WasChecked(allowZeroPower, es, v) {
        if v !in m.pending {
          LastIsChecked(allowZeroPower, es, v);
        }
      }
      forall i | 0 <= i < |t.store.votes| ensures WasChecked(allowZeroPower, es, t.store.votes[i]) {
        assert i < |m.store.votes| ==> t.store.votes[i] == m.store.votes[i];
      }
    }
  }

  lemma LastIsChecked(allowZeroPower: bool, es: seq<Event>, v: Vote)
    requires es != [] && es[|es| - 1].Ballot?
    requires Check(allowZeroPower, Run(allowZeroPower, EMPTY, es[..|es| - 1]).store, es[|es| - 1].request) == Success(v)
    ensures WasChecked(allowZeroPower, es, v)
  {
    assert CheckedAt(allowZeroPower, es, |es| - 1, v);
  }

  /** Every stored vote comes from a ballot of the run that passed all checks when it came in: its poll was
      open, its voter had not voted, its choice existed, and it had power unless votes without are allowed. */
  lemma EveryVoteWasChecked(allowZeroPower: bool, es: seq<Event>, i: nat)
    requires i < |Run(allowZeroPower, EMPTY, es).store.votes|
    ensures var v := Run(allowZeroPower, EMPTY, es).store.votes[i];
            exists k: nat :: CheckedAt(allowZeroPower, es, k, v)
                             && var s := Before(allowZeroPower, es, k).store;
                                v.proposal in s.proposals && s.proposals[v.proposal].isOpen &&
                                  !HasVoted(s.votes, v.proposal, v.voter)
                                && v.choice < |s.proposals[v.proposal].choices| && v.voter == Upper(es[k].request.voter)
                                && v.power == es[k].request.power && (allowZeroPower || v.power > MIN_VOTING_POWER)
  {
    AllWereChecked(allowZeroPower, es);
    var v := Run(allowZeroPower, EMPTY, es).store.votes[i];
    var k: nat :| CheckedAt(allowZeroPower, es, k, v);
    hide Run, HasVoted, Upper;
  }

  // ----- When votes stay inside the window -----

  predicate IsOpen(s: Store, id: ProposalId) {
    id in s.proposals && s.proposals[id].isOpen
  }

  /** Every ballot in flight is for an open poll, or comes too late because its voter has a stored vote. */
  ghost predicate InWindow(m: Machine) {
    forall v :: v in m.pending ==> IsOpen(m.store, v.proposal) || HasVoted(m.store.votes, v.proposal, v.voter)
  }

  /** The event closes a poll over the ballot in flight of a voter without a stored vote. */
  ghost predicate ClosesOver(m: Machine, e: Event) {
    && e.SetOpen? && !e.isOpen && e.id in m.store.proposals
    && exists v :: v in m.pending && v.proposal == e.id && !HasVoted(m.store.votes, v.proposal, v.voter)
  }

  /** The event stores a vote while its poll is not open. */
  predicate StoresLate(allowZeroPower: bool, m: Machine, e: Event) {
    && e.Commits? && Step(allowZeroPower, m, e).store.votes == m.store.votes + [e.vote]
    && !IsOpen(m.store, e.vote.proposal)
  }

  ghost predicate CanStoreLate(allowZeroPower: bool, m: Machine) {
    exists e :: StoresLate(allowZeroPower, m, e)
  }

  lemma VotedStays(votes: seq<Vote>, more: seq<Vote>, id: ProposalId, voter: string)
    requires votes <= more && HasVoted(votes, id, voter)
    ensures HasVoted(more, id, voter)
  {
    var i :| 0 <= i < |votes| && votes[i].proposal == id && votes[i].voter == voter;
    assert more[i] == votes[i];
  }

  /** No step but such a closing leaves the window, and such a closing always does. */
  lemma LeavesWindowExactly(allowZeroPower: bool, m: Machine, e: Event)
    requires InWindow(m)
    ensures InWindow(Step(allowZeroPower, m, e)) <==> !ClosesOver(m, e)
  {
    var t := Step(allowZeroPower, m, e);
    if ClosesOver(m, e) {
      var v :| v in m.pending && v.proposal == e.id && !HasVoted(m.store.votes, v.proposal, v.voter);
      assert v in t.pending && !IsOpen(t.store, v.proposal);
    } else {
      forall v | v in t.pending ensures IsOpen(t.store, v.proposal) || HasVoted(t.store.votes, v.proposal, v.voter) {
        WindowStep(allowZeroPower, m, e, v);
      }
    }
  }

  lemma StaysOpen(allowZeroPower: bool, m: Machine, e: Event, id: ProposalId)
    requires IsOpen(m.store, id) && !(e.SetOpen? && !e.isOpen && e.id == id)
    ensures IsOpen(Step(allowZeroPower, m, e).store, id)
  {
    hide Check, HasVoted, Plus;
  }

  lemma CheckedIsOpen(allowZeroPower: bool, s: Store, r: Request)
    requires Check(allowZeroPower, s, r).Success?
    ensures IsOpen(s, Check(allowZeroPower, s, r).value.proposal)
  {
    hide HasVoted, Upper;
  }

  lemma WindowStep(allowZeroPower: bool, m: Machine, e: Event, v: Vote)
    requires InWindow(m) && !ClosesOver(m, e) && v in Step(allowZeroPower, m, e).pending
    ensures var t := Step(allowZeroPower, m, e).store; IsOpen(t, v.proposal) || HasVoted(t.votes, v.proposal, v.voter)
  {
    hide Step, HasVoted, Check;
    var t := Step(allowZeroPower, m, e);
    StepAdds(allowZeroPower, m, e);
    if HasVoted(m.store.votes, v.proposal, v.voter) {
      VotedStays(m.store.votes, t.store.votes, v.proposal, v.voter);
    } else {
      if v !in m.pending {
        CheckedIsOpen(allowZeroPower, m.store, e.request);
      }
      StaysOpen(allowZeroPower, m, e, v.proposal);
    }
  }

  /** A vote can be stored late in the next step exactly when some ballot in flight is out of the window. */
  lemma LateExactly(allowZeroPower: bool, m: Machine)
    ensures InWindow(m) <==> !CanStoreLate(allowZeroPower, m)
  {
    forall v | v in m.pending
      ensures StoresLate(allowZeroPower, m, Commits(v)) <==>
              !IsOpen(m.store, v.proposal) && !HasVoted(m.store.votes, v.proposal, v.voter)
    {
      hide HasVoted;
    }
    forall e | StoresLate(allowZeroPower, m, e) ensures e.vote in m.pending {
      StepAdds(allowZeroPower, m, e);
      assert m.store.votes + [e.vote] != m.store.votes;
    }
  }

  ghost predicate NeverClosesOver(allowZeroPower: bool, es: seq<Event>) {
    forall k: nat :: k < |es| ==> !ClosesOver(Before(allowZeroPower, es, k), es[k])
  }

  lemma {:induction false} StaysInWindow(allowZeroPower: bool, es: seq<Event>, k: nat)
    requires k <= |es| && NeverClosesOver(allowZeroPower, es)
    ensures InWindow(Before(allowZeroPower, es, k))
    decreases k
  {
    hide ClosesOver, Step;
    if k > 0 {
      StaysInWindow(allowZeroPower, es, k - 1);
      RunSnoc(allowZeroPower, EMPTY, es[..k]);
      assert es[..k][..k - 1] == es[..k - 1] && es[..k][k - 1] == es[k - 1];
      LeavesWindowExactly(allowZeroPower, Before(allowZeroPower, es, k - 1), es[k - 1]);
    }
  }

  /** If no poll is closed over the ballot of a voter who has not voted, every vote of the run is stored
      while its poll is open. */
  lemma VotesStayInWindow(allowZeroPower: bool, es: seq<Event>, k: nat)
    requires k < |es| && NeverClosesOver(allowZeroPower, es)
    ensures !StoresLate(allowZeroPower, Before(allowZeroPower, es, k), es[k])
  {
    StaysInWindow(allowZeroPower, es, k);
    LateExactly(allowZeroPower, Before(allowZeroPower, es, k));
  }

  /** Wherever a poll is closed so, one more event stores a vote late. */
  lemma ClosingLetsOneLate(allowZeroPower: bool, es: seq<Event>, k: nat)
    requires k < |es| && ClosesOver(Before(allowZeroPower, es, k), es[k])
    ensures CanStoreLate(allowZeroPower, Before(allowZeroPower, es, k + 1))
  {
    var m := Before(allowZeroPower, es, k);
    RunSnoc(allowZeroPower, EMPTY, es[..k + 1]);
    assert es[..k + 1][..k] == es[..k] && es[..k + 1][k] == es[k];
    var v :| v in m.pending && v.proposal == es[k].id && !HasVoted(m.store.votes, v.proposal, v.voter);
    var t := Run(allowZeroPower, EMPTY, es[..k + 1]);
    assert v in t.pending && !IsOpen(t.store, v.proposal) && t.store.votes == m.store.votes;
    hide Run;
    LateExactly(allowZeroPower, t);
  }

  /** It does happen: the window is only looked at in the check. */
  lemma LateVote(v: Vote, choices: seq<string>)
    requires Upper(v.voter) == v.voter && v.choice < |choices| && v.power > 0
    ensures var m := Run(false, EMPTY, [Create(v.proposal, choices), SetOpen(v.proposal, true),
                                        Ballot(Request(v.proposal, v.voter, Some(v.choice), v.power)),
                                        SetOpen(v.proposal, false), Commits(v)]);
            v.proposal in m.store.proposals && !m.store.proposals[v.proposal].isOpen && m.store.votes == [v]
  {
    hide Upper, Plus;
    var m1 := Step(false, EMPTY, Create(v.proposal, choices));
    var m2 := Step(false, m1, SetOpen(v.proposal, true));
    var m3 := Step(false, m2, Ballot(Request(v.proposal, v.voter, Some(v.choice), v.power)));
    var m4 := Step(false, m3, SetOpen(v.proposal, false));
    var m5 := Step(false, m4, Commits(v));
    assert m3.pending == multiset{v};
    assert Run(false, m4, [Commits(v)]) == m5;
    assert Run(false, m2, [Ballot(Request(v.proposal, v.voter, Some(v.choice), v.power)), SetOpen(v.proposal, false),
           Commits(v)]) == m5;
  }

  // ----- Results -----

  /** One row of the aggregation over the votes. */
  datatype ChoiceTally = ChoiceTally(choice: nat, voteCount: nat, totalPower: nat)

  datatype ChoiceResult = ChoiceResult(index: nat, name: string, voteCount: nat, totalPower: nat)

  function Row(t: ChoiceTally): Tally {
    Tally(t.voteCount, t.totalPower)
  }

  ghost predicate Distinct(cs: seq<nat>) {
    forall i, j :: 0 <= i < j < |cs| ==> cs[i] != cs[j]
  }

  function ChoicesOf(tallies: seq<ChoiceTally>): seq<nat> {
    seq(|tallies|, i requires 0 <= i < |tallies| => tallies[i].choice)
  }

  ghost predicate Covers(cs: seq<nat>, votes: seq<Vote>, id: ProposalId) {
    forall i :: 0 <= i < |votes| && votes[i].proposal == id ==> votes[i].choice in cs
  }

  /** What the aggregation returns: each choice voted on, once, with the sum of its votes. */
  ghost predicate TalliesOf(tallies: seq<ChoiceTally>, votes: seq<Vote>, id: ProposalId) {
    && Distinct(ChoicesOf(tallies)) && Covers(ChoicesOf(tallies), votes, id)
    && forall i :: 0 <= i < |tallies| ==> Row(tallies[i]) == Sum(votes, id, On(tallies[i].choice))
  }

  /** The sums of several choices, added up. */
  function SumOver(cs: seq<nat>, votes: seq<Vote>, id: ProposalId): Tally {
    if cs == [] then NO_VOTES else Plus(SumOver(cs[..|cs| - 1], votes, id), Sum(votes, id, On(cs[|cs| - 1])))
  }

  /** One more vote adds to one of several distinct choices, or to none of them. */
  lemma {:induction false} OneMoreVote(cs: seq<nat>, votes: seq<Vote>, v: Vote, id: ProposalId)
    requires Distinct(cs)
    ensures SumOver(cs, votes + [v], id)
            == if v.proposal == id && v.choice in cs then Plus(SumOver(cs, votes, id), Tally(1, v.power))
               else SumOver(cs, votes, id)
  {
    if cs != [] {
      var front, last := cs[..|cs| - 1], cs[|cs| - 1];
      OneMoreVote(front, votes, v, id);
      SumSnoc(votes, v, id, On(last));
      assert cs == front + [last];
    }
  }

  lemma {:induction false} NoVotesAddUp(cs: seq<nat>, votes: seq<Vote>, id: ProposalId)
    requires votes == []
    ensures SumOver(cs, votes, id) == NO_VOTES
  {
    if cs != [] {
      NoVotesAddUp(cs[..|cs| - 1], votes, id);
      assert Sum(votes, id, On(cs[|cs| - 1])) == NO_VOTES;
      hide Sum;
    }
  }

  /** The sums of the choices make up the sum of the proposal, as long as no choice is missing or repeated. */
  lemma {:induction false} ChoicesAddUp(cs: seq<nat>, votes: seq<Vote>, id: ProposalId)
    requires Distinct(cs) && Covers(cs, votes, id)
    ensures SumOver(cs, votes, id) == Sum(votes, id, Overall)
  {
    if votes == [] {
      NoVotesAddUp(cs, votes, id);
    } else {
      var front, last := votes[..|votes| - 1], votes[|votes| - 1];
      assert forall i :: 0 <= i < |front| ==> front[i] == votes[i];
      ChoicesAddUp(cs, front, id);
      OneMoreVote(cs, front, last, id);
      assert votes == front + [last];
    }
  }

  function TotalPower(tallies: seq<ChoiceTally>): nat {
    if tallies == [] then 0 else TotalPower(tallies[..|tallies| - 1]) + tallies[|tallies| - 1].totalPower
  }

  function TotalCount(tallies: seq<ChoiceTally>): nat {
    if tallies == [] then 0 else TotalCount(tallies[..|tallies| - 1]) + tallies[|tallies| - 1].voteCount
  }

  lemma {:induction false} TalliesAddUp(tallies: seq<ChoiceTally>, votes: seq<Vote>, id: ProposalId)
    requires forall i :: 0 <= i < |tallies| ==> Row(tallies[i]) == Sum(votes, id, On(tallies[i].choice))
    ensures Tally(TotalCount(tallies), TotalPower(tallies)) == SumOver(ChoicesOf(tallies), votes, id)
  {
    hide Sum;
    if tallies != [] {
      var front := tallies[..|tallies| - 1];
      TalliesAddUp(front, votes, id);
      assert ChoicesOf(tallies) == ChoicesOf(front) + [tallies[|tallies| - 1].choice];
      assert Row(tallies[|tallies| - 1]) == Sum(votes, id, On(tallies[|tallies| - 1].choice));
    }
  }

  /** Power in all means power somewhere. */
  lemma {:induction false} SomePower(votes: seq<Vote>, id: ProposalId, n: nat)
    requires forall i :: 0 <= i < |votes| && votes[i].proposal == id ==> votes[i].choice < n
    requires Sum(votes, id, Overall).totalPower > 0
    ensures exists c: nat :: c < n && Sum(votes, id, On(c)).totalPower > 0
  {
    var front, last := votes[..|votes| - 1], votes[|votes| - 1];
    assert forall i :: 0 <= i < |front| ==> front[i] == votes[i];
    if last.proposal == id && last.power > 0 {
      assert Sum(votes, id, On(last.choice)).totalPower > 0;
    } else {
      SomePower(front, id, n);
      var c: nat :| c < n && Sum(front, id, On(c)).totalPower > 0;
      assert Sum(votes, id, On(c)).totalPower > 0;
    }
  }

  function ByPower(r: ChoiceResult): int {
    0 - r.totalPower
  }

  /** No other choice has as much power. */
  ghost predicate Leads(results: seq<ChoiceResult>, i: nat)
    requires i < |results|
  {
    forall j :: 0 <= j < |results| && j != i ==> results[j].totalPower < results[i].totalPower
  }

  ghost predicate Indexed(results: seq<ChoiceResult>) {
    forall i :: 0 <= i < |results| ==> results[i].index == i
  }

  lemma {:induction false} EachOnce(results: seq<ChoiceResult>, n: nat, r: ChoiceResult)
    requires Indexed(results) && n <= |results|
    ensures multiset(results[..n])[r] <= 1 && (multiset(results[..n])[r] == 1 ==> r.index < n)
  {
    if n > 0 {
      EachOnce(results, n - 1, r);
      assert results[..n] == results[..n - 1] + [results[n - 1]];
    }
  }

  ghost predicate Arranges(sorted: seq<ChoiceResult>, results: seq<ChoiceResult>) {
    Sorting.Ordered(ByPower, sorted) && multiset(sorted) == multiset(results) && |sorted| == |results|
  }

  lemma Behind(results: seq<ChoiceResult>, sorted: seq<ChoiceResult>, j: nat)
    requires Arranges(sorted, results) && j < |results| && results[j] != sorted[0]
    ensures |sorted| > 1 && results[j].totalPower <= sorted[1].totalPower <= sorted[0].totalPower
  {
    assert results[j] in multiset(sorted);
    var k :| 0 <= k < |sorted| && sorted[k] == results[j];
    assert ByPower(sorted[0]) <= ByPower(sorted[1]) <= ByPower(sorted[k]);
  }

  lemma HeadIsNotSecond(results: seq<ChoiceResult>, sorted: seq<ChoiceResult>)
    requires Indexed(results) && Arranges(sorted, results) && |results| > 0
    ensures sorted[0].index < |results| && sorted[0] == results[sorted[0].index]
    ensures |results| > 1 ==>
              sorted[1].index < |results| && sorted[1] == results[sorted[1].index] &&
              sorted[0].index != sorted[1].index
  {
    assert sorted[0] in multiset(results);
    if |results| > 1 {
      assert sorted[1] in multiset(results);
      EachOnce(results, |results|, sorted[0]);
      assert results[..|results|] == results && sorted == [sorted[0]] + [sorted[1]] + sorted[2..];
    }
  }

  /** The head of the sorted results beats the next one exactly when it beats all others, and only a choice
      that beats all others gets to the head so. */
  lemma HeadLeads(results: seq<ChoiceResult>, sorted: seq<ChoiceResult>)
    requires Indexed(results) && |results| > 0 && sorted == Sorting.Sort(ByPower, results)
    ensures |sorted| == |results| && sorted[0].index < |results| && sorted[0] == results[sorted[0].index]
    ensures (|sorted| == 1 || sorted[0].totalPower > sorted[1].totalPower) <==> Leads(results, sorted[0].index)
    ensures forall i :: 0 <= i < |results| && Leads(results, i) ==> sorted[0].index == i
  {
    Sorting.SortIsStable(ByPower, results);
    assert Arranges(sorted, results);
    HeadIsNotSecond(results, sorted);
    hide Sorting.Sort, Arranges;
    forall j: nat | j < |results| && j != sorted[0].index
      ensures |sorted| > 1 && results[j].totalPower <= sorted[1].totalPower <= sorted[0].totalPower
    {
      Behind(results, sorted, j);
    }
  }

  // ----- The service over its two collections -----

  datatype CastOutcome = Stored(vote: Vote) | Refused(refusal: Refusal) | DuplicateKey

  class VotingService {
    const allowZeroPower: bool
    var proposals: map<ProposalId, Proposal>
    var votes: seq<Vote>

    ghost function State(): Store
      reads this
    {
      Store(proposals, votes)
    }

    constructor (allowZeroPower: bool)
      ensures this.allowZeroPower == allowZeroPower && State() == EMPTY.store
    {
      this.allowZeroPower := allowZeroPower;
      proposals, votes := map[], [];
    }

    /** `castVote` up to its transaction. */
    method CheckBallot(r: Request) returns (checked: Result<Vote, Refusal>)
      ensures checked == Check(allowZeroPower, State(), r)
      ensures checked.Success? <==>
                && r.proposal in proposals && proposals[r.proposal].isOpen
                && IsNew(votes, r.proposal, Upper(r.voter)) && IsChoice(proposals[r.proposal], r.choice)
                && (allowZeroPower || r.power > 0)
      ensures checked.Success? ==> checked.value == Vote(r.proposal, Upper(r.voter), r.choice.value, r.power)
    {
      PassesExactly(allowZeroPower, State(), r);
      var voterKey := Upper(r.voter);
      if r.proposal !in proposals {
        return Failure(ProposalNotFound);
      }
      var proposal := proposals[r.proposal];
      if !proposal.isOpen {
        return Failure(VotingNotOpen);
      }
      if HasVoted(votes, r.proposal, voterKey) {
        return Failure(AlreadyVoted);
      }
      if r.choice.None? || r.choice.value < 0 || r.choice.value >= |proposal.choices| {
        return Failure(InvalidChoice);
      }
      if !allowZeroPower && r.power <= MIN_VOTING_POWER {
        return Failure(NoPower);
      }
      return Success(Vote(r.proposal, voterKey, r.choice.value, r.power));
    }

    /** The transaction of `castVote`: insert the vote, then increment the counters. */
    method CommitBallot(v: Vote) returns (stored: bool)
      modifies this
      ensures stored == Commit(old(State()), v).Some?
      ensures stored <==> IsNew(old(votes), v.proposal, v.voter)
      ensures votes == if stored then old(votes) + [v] else old(votes)
      ensures State() == if stored then Commit(old(State()), v).value else old(State())
    {
      if HasVoted(votes, v.proposal, v.voter) {
        return false;
      }
      votes := votes + [v];
      if v.proposal in proposals {
        var p := proposals[v.proposal];
        proposals := proposals[v.proposal := p.(voteCount := p.voteCount + 1,
                                               totalVotingPower := p.totalVotingPower + v.power,
                                               tally := p.tally[v.choice :=
                                                 Plus(TallyOf(p, v.choice), Tally(1, v.power))])];
      }
      return true;
    }

    /** A call nobody interleaves with: no duplicate key, and exactly the checked vote is added. */
    method CastVote(r: Request) returns (outcome: CastOutcome)
      requires StoreInv(State())
      modifies this
      ensures StoreInv(State()) && !outcome.DuplicateKey?
      ensures match Check(allowZeroPower, old(State()), r)
              case Success(v) => outcome == Stored(v) && votes == old(votes) + [v]
              case Failure(refusal) => outcome == Refused(refusal) && State() == old(State())
      ensures outcome.Stored? <==>
                && r.proposal in old(proposals) && old(proposals)[r.proposal].isOpen
                && IsNew(old(votes), r.proposal, Upper(r.voter)) && IsChoice(old(proposals)[r.proposal], r.choice)
                && (allowZeroPower || r.power > 0)
      ensures if outcome.Stored? then
                && outcome.vote == Vote(r.proposal, Upper(r.voter), r.choice.value, r.power)
                && votes == old(votes) + [outcome.vote]
              else votes == old(votes) && proposals == old(proposals)
    {
      var checked := CheckBallot(r);
      match checked {
        case Failure(refusal) => return Refused(refusal);
        case Success(v) =>
          UpperTwice(r.voter);
          CommitKeeps(State(), v);
          hide StoreInv, Upper, Increment, IsNew, IsChoice, Check;
          var stored := CommitBallot(v);
          return if stored then Stored(v) else DuplicateKey;
      }
    }

    /** The results of a proposal, from an aggregation over its votes. The totals agree with the proposal's own
        counters, and the winner is the choice with strictly the most power, if there is one. */
    method GetResults(id: ProposalId, tallies: seq<ChoiceTally>)
      returns (results: seq<ChoiceResult>, totalVotingPower: nat, totalVoteCount: nat, winner: Option<nat>)
      requires StoreInv(State()) && id in proposals && TalliesOf(tallies, votes, id)
      ensures |results| == |proposals[id].choices|
      ensures forall i :: 0 <= i < |results| ==>
                results[i].index == i && results[i].name == proposals[id].choices[i]
                && Tally(results[i].voteCount, results[i].totalPower) == Sum(votes, id, On(i))
                   == TallyOf(proposals[id], i)
      ensures Tally(totalVoteCount, totalVotingPower) == Sum(votes, id, Overall)
              == Tally(proposals[id].voteCount, proposals[id].totalVotingPower)
      ensures forall i: nat :: winner == Some(i) <==> totalVotingPower > 0 && i < |results| && Leads(results, i)
    {
      hide Sum;
      var choices := proposals[id].choices;
      totalVotingPower := TotalPower(tallies);
      totalVoteCount := TotalCount(tallies);
      TalliesAddUp(tallies, votes, id);
      ChoicesAddUp(ChoicesOf(tallies), votes, id);
      results := PerChoice(choices, tallies, votes, id);
      assert CountersAgree(proposals[id], votes, id);
      if totalVotingPower == 0 {
        winner := None;
      } else {
        assert forall i :: 0 <= i < |votes| ==> WellFormed(proposals, votes[i]);
        SomePower(votes, id, |choices|);
        hide StoreInv, TalliesOf, CountersAgree, TotalPower, TotalCount, Leads;
        winner := Winner(results);
      }
    }

    static method PerChoice(choices: seq<string>, tallies: seq<ChoiceTally>, ghost votes: seq<Vote>,
                            ghost id: ProposalId)
      returns (results: seq<ChoiceResult>)
      requires TalliesOf(tallies, votes, id)
      ensures |results| == |choices|
      ensures forall i :: 0 <= i < |results| ==>
                results[i].index == i && results[i].name == choices[i]
                && Tally(results[i].voteCount, results[i].totalPower) == Sum(votes, id, On(i))
    {
      hide Sum;
      var tallyMap := TallyMap(tallies);
      results := seq(|choices|, i requires 0 <= i < |choices| =>
        var t := if i in tallyMap then tallyMap[i] else ChoiceTally(i, 0, 0);
        ChoiceResult(i, choices[i], t.voteCount, t.totalPower));
      forall i: nat | i < |choices|
        ensures Tally(results[i].voteCount, results[i].totalPower) == Sum(votes, id, On(i))
      {
        if i !in tallyMap {
          SumOfNone(votes, id, On(i));
        }
      }
    }

    static method Winner(results: seq<ChoiceResult>) returns (winner: Option<nat>)
      requires Indexed(results) && exists i :: 0 <= i < |results| && results[i].totalPower > 0
      ensures forall i: nat :: winner == Some(i) <==> i < |results| && Leads(results, i)
    {
      var sorted := Sorting.Sort(ByPower, results);
      HeadLeads(results, sorted);
      winner := None;
      if sorted[0].totalPower > (if |sorted| > 1 then sorted[1].totalPower else 0) {
        winner := Some(sorted[0].index);
      }
    }

    static method TallyMap(tallies: seq<ChoiceTally>) returns (tallyMap: map<nat, ChoiceTally>)
      requires Distinct(ChoicesOf(tallies))
      ensures forall i :: 0 <= i < |tallies| ==>
                tallies[i].choice in tallyMap && tallyMap[tallies[i].choice] == tallies[i]
      ensures forall c :: c in tallyMap ==> c in ChoicesOf(tallies)
    {
      tallyMap := map[];
      for k := 0 to |tallies|
        invariant forall i :: 0 <= i < k ==> tallies[i].choice in tallyMap && tallyMap[tallies[i].choice] == tallies[i]
        invariant forall c :: c in tallyMap ==> c in ChoicesOf(tallies)
      {
        ghost var cs := ChoicesOf(tallies);
        assert cs[k] == tallies[k].choice;
        assert forall i :: 0 <= i < k ==> cs[i] != cs[k] && cs[i] == tallies[i].choice;
        tallyMap := tallyMap[tallies[k].choice := tallies[k]];
      }
    }
  }
}
