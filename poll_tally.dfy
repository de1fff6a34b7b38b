/** The poll record of the community app and the pure operations on it:
    counting a vote, creating a fresh poll, and the percentage shown per option. */
module PollTally {

  /** One answer of a poll with its running vote count. */
  datatype PollOption = PollOption(id: string, text: string, votes: nat)

  datatype Poll = Poll(
    id: string,
    question: string,
    options: seq<PollOption>,
    active: bool,
    totalVotes: nat)

  /** The poll the app starts with. */
  function InitialPoll(): Poll {
    Poll("poll-1",
         "Which night track layout is the best for drifting? \U{1F3CE}\U{FE0F}\U{1F525}",
         [PollOption("opt-1", "The Neon Loop", 45),
          PollOption("opt-2", "Azure Straightaway", 32),
          PollOption("opt-3", "Voltage S-Curve", 68)],
         true,
         145)
  }

  // ---------------------------------------------------------------------------
  // Counting

  /** Sum of the per-option counts. */
  function SumVotes(opts: seq<PollOption>): nat {
    if opts == [] then 0 else opts[0].votes + SumVotes(opts[1..])
  }

  /** How many options carry the id `optId`. */
  function Occurrences(opts: seq<PollOption>, optId: string): nat {
    if opts == [] then 0
    else (if opts[0].id == optId then 1 else 0) + Occurrences(opts[1..], optId)
  }

  predicate HasOption(opts: seq<PollOption>, optId: string) {
    exists i :: 0 <= i < |opts| && opts[i].id == optId
  }

  predicate UniqueIds(opts: seq<PollOption>) {
    forall i, j :: 0 <= i < j < |opts| ==> opts[i].id != opts[j].id
  }

  /** The tally invariant: ids identify options, and the poll's total is the sum of its counts. */
  predicate Tallied(p: Poll) {
    UniqueIds(p.options) && SumVotes(p.options) == p.totalVotes
  }

  // ---------------------------------------------------------------------------
  // handleVote

  /** The per-option step of the vote: a matching option gains one vote. */
  function Bump(o: PollOption, optId: string): PollOption {
    if o.id == optId then o.(votes := o.votes + 1) else o
  }

  function VoteOptions(opts: seq<PollOption>, optId: string): seq<PollOption> {
    seq(|opts|, i requires 0 <= i < |opts| => Bump(opts[i], optId))
  }

  /** The state update of `handleVote(optId)`: the total always grows by one,
      every option with id `optId` gains one vote. */
  function Vote(p: Poll, optId: string): Poll {
    p.(totalVotes := p.totalVotes + 1, options := VoteOptions(p.options, optId))
  }

  /** What one vote changes, and that nothing else changes. */
  lemma VoteEffect(p: Poll, optId: string)
    ensures Vote(p, optId).totalVotes == p.totalVotes + 1
    ensures Vote(p, optId).id == p.id
    ensures Vote(p, optId).question == p.question
    ensures Vote(p, optId).active == p.active
    ensures |Vote(p, optId).options| == |p.options|
    ensures forall i :: 0 <= i < |p.options| ==>
      var o, o' := p.options[i], Vote(p, optId).options[i];
      o'.id == o.id && o'.text == o.text &&
      o'.votes == (if o.id == optId then o.votes + 1 else o.votes)
  {
  }

  /** Voting adds to the sum of the counts exactly the number of options that match. */
  lemma {:induction false} SumAfterVote(opts: seq<PollOption>, optId: string)
    ensures SumVotes(VoteOptions(opts, optId)) == SumVotes(opts) + Occurrences(opts, optId)
  {
    if opts != [] {
      assert VoteOptions(opts, optId)[1..] == VoteOptions(opts[1..], optId);
      SumAfterVote(opts[1..], optId);
    }
  }

  /** With unique ids, an id that is present occurs exactly once. */
  lemma {:induction false} OccursOnce(opts: seq<PollOption>, optId: string)
    requires UniqueIds(opts) && HasOption(opts, optId)
    ensures Occurrences(opts, optId) == 1
  {
    if opts[0].id == optId {
      OccursNever(opts[1..], optId);
    } else {
      var i :| 0 <= i < |opts| && opts[i].id == optId;
      assert opts[1..][i - 1].id == optId;
      OccursOnce(opts[1..], optId);
    }
  }

  /** An id that matches no option occurs zero times. */
  lemma {:induction false} OccursNever(opts: seq<PollOption>, optId: string)
    requires !HasOption(opts, optId)
    ensures Occurrences(opts, optId) == 0
  {
    if opts != [] {
      assert opts[0].id != optId;
      assert !HasOption(opts[1..], optId) by {
        forall i | 0 <= i < |opts[1..]| ensures opts[1..][i].id != optId {
          assert opts[1..][i] == opts[i + 1];
        }
      }
      OccursNever(opts[1..], optId);
    }
  }

  /** Vote conservation: a vote for an option of the poll keeps the total equal to the sum. */
  lemma VotePreservesTally(p: Poll, optId: string)
    requires Tallied(p) && HasOption(p.options, optId)
    ensures Tallied(Vote(p, optId))
  {
    SumAfterVote(p.options, optId);
    OccursOnce(p.options, optId);
  }

  /** A vote for an id that matches no option changes no count but still
      raises the total, so a tallied poll stops being tallied. */
  lemma VoteForUnknownId(p: Poll, optId: string)
    requires !HasOption(p.options, optId)
    ensures Vote(p, optId).options == p.options
    ensures Vote(p, optId).totalVotes == p.totalVotes + 1
    ensures Tallied(p) ==> !Tallied(Vote(p, optId))
  {
  }

  /** The starting poll is tallied: 45 + 32 + 68 == 145 with distinct ids. */
  lemma InitialPollTallied()
    ensures Tallied(InitialPoll())
  {
  }

  // ---------------------------------------------------------------------------
  // postPoll

  function DigitChar(d: nat): char
    requires d < 10
  {
    "0123456789"[d]
  }

  /** Decimal rendering of a natural number, as a template literal prints it. */
  function Decimal(n: nat): (s: string)
    ensures |s| >= 1
    ensures n < 10 <==> |s| == 1
    decreases n
  {
    if n < 10 then [DigitChar(n)] else Decimal(n / 10) + [DigitChar(n % 10)]
  }

  /** Distinct numbers print differently. */
  lemma {:induction false} DecimalInjective(a: nat, b: nat)
    requires Decimal(a) == Decimal(b)
    ensures a == b
    decreases a
  {
    if 10 <= a {
      var sa, sb := Decimal(a), Decimal(b);
      assert sa[..|sa| - 1] == Decimal(a / 10);
      assert sb[..|sb| - 1] == Decimal(b / 10);
      assert sa[|sa| - 1] == DigitChar(a % 10);
      assert sb[|sb| - 1] == DigitChar(b % 10);
      DecimalInjective(a / 10, b / 10);
    }
  }

  /** The id `opt-${i}` given to the i-th option of a new poll. */
  function OptionId(i: nat): string {
    "opt-" + Decimal(i)
  }

  lemma OptionIdInjective(i: nat, j: nat)
    requires OptionId(i) == OptionId(j)
    ensures i == j
  {
    assert Decimal(i) == OptionId(i)[4..];
    assert Decimal(j) == OptionId(j)[4..];
    DecimalInjective(i, j);
  }

  /** The options `opts.map((t, i) => ({ id: `opt-${i}`, text: t, votes: 0 }))`. */
  function FreshOptions(texts: seq<string>): seq<PollOption> {
    seq(|texts|, i requires 0 <= i < |texts| => PollOption(OptionId(i), texts[i], 0))
  }

  /** The poll `postPoll(q, opts)` installs; `id` is the caller's clock reading. */
  function NewPoll(id: string, question: string, texts: seq<string>): Poll {
    Poll(id, question, FreshOptions(texts), true, 0)
  }

  /** The shape of a new poll. */
  lemma NewPollShape(id: string, question: string, texts: seq<string>)
    ensures NewPoll(id, question, texts).id == id
    ensures NewPoll(id, question, texts).question == question
    ensures NewPoll(id, question, texts).active
    ensures NewPoll(id, question, texts).totalVotes == 0
    ensures |NewPoll(id, question, texts).options| == |texts|
    ensures forall i :: 0 <= i < |texts| ==>
      NewPoll(id, question, texts).options[i] == PollOption("opt-" + Decimal(i), texts[i], 0)
  {
  }

  lemma {:induction false} SumOfZeros(opts: seq<PollOption>)
    requires forall i :: 0 <= i < |opts| ==> opts[i].votes == 0
    ensures SumVotes(opts) == 0
  {
    if opts != [] {
      assert forall i :: 0 <= i < |opts[1..]| ==> opts[1..][i] == opts[i + 1];
      SumOfZeros(opts[1..]);
    }
  }

  /** A new poll is tallied: its ids are distinct and it has no votes. */
  lemma NewPollTallied(id: string, question: string, texts: seq<string>)
    ensures Tallied(NewPoll(id, question, texts))
  {
    var opts := FreshOptions(texts);
    forall i, j | 0 <= i < j < |opts| ensures opts[i].id != opts[j].id {
      if opts[i].id == opts[j].id {
        OptionIdInjective(i, j);
      }
    }
    SumOfZeros(opts);
  }

  // ---------------------------------------------------------------------------
  // The percentage shown next to an option

  /** `totalVotes > 0 ? Math.round(votes / totalVotes * 100) : 0`, with exact
      rounding: the nearest integer to 100 * votes / total, halves rounded up. */
  function Percentage(votes: int, total: int): (pct: int)
    ensures total <= 0 ==> pct == 0
    ensures total > 0 ==> 2 * total * pct <= 200 * votes + total < 2 * total * pct + 2 * total
  {
    if total > 0 then (200 * votes + total) / (2 * total) else 0
  }

  /** Cancelling a positive factor from a strict inequality. */
  lemma MulCancel(d: int, a: int, b: int)
    requires d > 0 && d * a < d * b
    ensures a < b
  {
  }

  /** The percentage of a count between zero and the total lies in 0..100. */
  lemma PercentageBounds(votes: int, total: int)
    requires 0 <= votes <= total
    ensures 0 <= Percentage(votes, total) <= 100
  {
    if total > 0 {
      var pct, d := Percentage(votes, total), 2 * total;
      assert d * pct + d == d * (pct + 1);
      MulCancel(d, 0, pct + 1);
      assert d * 101 == 202 * total;
      MulCancel(d, pct, 101);
    }
  }

  /** More votes never show a smaller percentage. */
  lemma PercentageMonotone(v1: int, v2: int, total: int)
    requires v1 <= v2
    ensures Percentage(v1, total) <= Percentage(v2, total)
  {
    if total > 0 {
      var p1, p2, d := Percentage(v1, total), Percentage(v2, total), 2 * total;
      assert d * p2 + d == d * (p2 + 1);
      MulCancel(d, p1, p2 + 1);
    }
  }

  /** An option holding every vote shows 100, one holding none shows 0. */
  lemma PercentageExtremes(total: int)
    requires total > 0
    ensures Percentage(total, total) == 100
    ensures Percentage(0, total) == 0
  {
    var d := 2 * total;
    var full, none := Percentage(total, total), Percentage(0, total);
    PercentageBounds(total, total);
    assert d * 99 == 198 * total;
    MulCancel(d, 99, full);
    PercentageBounds(0, total);
    assert d * 1 == d;
    MulCancel(d, none, 1);
  }

  /** The percentages rendered for the options of a poll, in option order. */
  function Percentages(p: Poll): seq<int> {
    seq(|p.options|, i requires 0 <= i < |p.options| => Percentage(p.options[i].votes, p.totalVotes))
  }

  lemma {:induction false} VotesAtMostSum(opts: seq<PollOption>, i: nat)
    requires i < |opts|
    ensures opts[i].votes <= SumVotes(opts)
  {
    if i > 0 {
      assert opts[1..][i - 1] == opts[i];
      VotesAtMostSum(opts[1..], i - 1);
    }
  }

  /** In a poll whose counts sum to at most its total, every displayed percentage lies in 0..100. */
  lemma DisplayedPercentagesBounded(p: Poll)
    requires SumVotes(p.options) <= p.totalVotes
    ensures |Percentages(p)| == |p.options|
    ensures forall i :: 0 <= i < |p.options| ==> 0 <= Percentages(p)[i] <= 100
  {
    forall i | 0 <= i < |p.options| ensures 0 <= Percentages(p)[i] <= 100 {
      VotesAtMostSum(p.options, i);
      PercentageBounds(p.options[i].votes, p.totalVotes);
    }
  }
}
