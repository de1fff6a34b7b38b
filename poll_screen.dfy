/** The component state of the poll screen: the app's `poll` and `activeTab`
    and the `votedId` of the mounted poll view, updated by event handlers. */
module PollScreen {
  import opened Options
  import opened PollTally

  /** The three tabs of the bottom navigation bar. */
  datatype Tab = Feed | Polls | Admin

  /** The vote-once widget showing a poll. */
  class PollView {
    /** The option this view has voted for; null until the first click. */
    var votedId: Option<string>
    /** Every argument this view has passed to `onVote`, in order. */
    ghost var Emitted: seq<string>

    /** Only a click made while `votedId` was falsy reaches `onVote`, and it
        records its id; so every emitted id but the last is the falsy ''. */
    ghost predicate Valid()
      reads this
    {
      (votedId.None? <==> Emitted == []) &&
      (Emitted != [] ==> votedId == Some(Emitted[|Emitted| - 1])) &&
      (forall k :: 0 <= k < |Emitted| - 1 ==> Emitted[k] == "")
    }

    /** A freshly mounted view has not voted. */
    constructor ()
      ensures Valid()
      ensures votedId == None && Emitted == []
    {
      votedId := None;
      Emitted := [];
    }

    /** `disabled={!!votedId}` on every option button; also whether the percentages show.
        The buttons are locked exactly when the last `onVote` call carried a non-empty id. */
    function Locked(): (locked: bool)
      reads this
      ensures Valid() ==> (locked <==> Emitted != [] && Emitted[|Emitted| - 1] != "")
    {
      Truthy(votedId)
    }

    /** `handleVote(id)`: after a truthy `votedId` nothing happens; otherwise the
        click is recorded and `onVote(id)` is called, returned here as `fired`. */
    method HandleVote(id: string) returns (fired: Option<string>)
      requires Valid()
      modifies this
      ensures Valid()
      ensures old(Locked()) ==> fired == None && votedId == old(votedId) && Emitted == old(Emitted)
      ensures !old(Locked()) ==> fired == Some(id) && votedId == Some(id) && Emitted == old(Emitted) + [id]
    {
      if Truthy(votedId) {
        return None;
      }
      votedId := Some(id);
      Emitted := Emitted + [id];
      fired := Some(id);
    }
  }

  /** A view that only ever receives non-empty ids calls `onVote` at most once. */
  lemma OneVotePerView(v: PollView)
    requires v.Valid()
    requires forall k :: 0 <= k < |v.Emitted| ==> v.Emitted[k] != ""
    ensures |v.Emitted| <= 1
    ensures v.Emitted != [] ==> v.Locked()
  {
    // Mentioning Emitted[0] lets Valid's quantifier fire at k == 0.
    ghost var first := if v.Emitted == [] then "" else v.Emitted[0];
    if |v.Emitted| > 1 {
      assert false;
    }
  }

  predicate NonEmptyIds(opts: seq<PollOption>) {
    forall i :: 0 <= i < |opts| ==> opts[i].id != ""
  }

  /** The state of the root component. */
  class App {
    var activeTab: Tab
    var poll: Poll
    /** The mounted `PollView`: present exactly while the polls tab is shown,
        discarded with its `votedId` when another tab is selected. */
    var view: PollView?

    ghost predicate Valid()
      reads this, view
    {
      (view != null <==> activeTab == Polls) &&
      NonEmptyIds(poll.options) &&
      (view != null ==>
        view.Valid() &&
        (forall k :: 0 <= k < |view.Emitted| ==> view.Emitted[k] != ""))
    }

    /** The app opens on the feed with the mock poll. */
    constructor ()
      ensures Valid()
      ensures activeTab == Feed && poll == InitialPoll() && view == null
      ensures Tallied(poll)
    {
      activeTab := Feed;
      poll := InitialPoll();
      view := null;
      InitialPollTallied();
    }

    /** `setActiveTab(tab)`: entering the polls tab mounts a fresh view,
        leaving it unmounts the view, and the poll is untouched. */
    method SelectTab(tab: Tab)
      requires Valid()
      modifies this
      ensures Valid()
      ensures activeTab == tab && poll == old(poll)
      ensures tab == Polls && old(activeTab) == Polls ==> view == old(view)
      ensures tab == Polls && old(activeTab) != Polls ==> fresh(view) && view.votedId == None && view.Emitted == []
    {
      if tab == Polls && activeTab != Polls {
        view := new PollView();
      } else if tab != Polls {
        view := null;
      }
      activeTab := tab;
    }

    /** The three nav buttons. */
    method ClickFeed()
      requires Valid()
      modifies this
      ensures Valid() && activeTab == Feed && poll == old(poll) && view == null
    {
      SelectTab(Feed);
    }

    method ClickPolls()
      requires Valid()
      modifies this
      ensures Valid() && activeTab == Polls && poll == old(poll)
      ensures old(activeTab) == Polls ==> view == old(view)
      ensures old(activeTab) != Polls ==> fresh(view) && view.votedId == None
    {
      SelectTab(Polls);
    }

    method ClickAdmin()
      requires Valid()
      modifies this
      ensures Valid() && activeTab == Admin && poll == old(poll) && view == null
    {
      SelectTab(Admin);
    }

    /** `handleVote(optId)`: the poll becomes `Vote(poll, optId)`; nothing else changes. */
    method HandleVote(optId: string)
      requires Valid()
      modifies this
      ensures Valid()
      ensures poll == Vote(old(poll), optId)
      ensures activeTab == old(activeTab) && view == old(view)
    {
      VoteEffect(poll, optId);
      poll := Vote(poll, optId);
    }

    /** `postPoll(q, opts)`: installs a fresh tallied poll and shows the polls tab.
        `now` stands for `Date.now().toString()`. */
    method PostPoll(now: string, q: string, opts: seq<string>)
      requires Valid()
      modifies this
      ensures Valid()
      ensures poll == NewPoll(now, q, opts) && Tallied(poll)
      ensures activeTab == Polls
      ensures old(activeTab) == Polls ==> view == old(view)
      ensures old(activeTab) != Polls ==> fresh(view) && view.votedId == None
    {
      NewPollShape(now, q, opts);
      NewPollTallied(now, q, opts);
      poll := NewPoll(now, q, opts);
      SelectTab(Polls);
    }

    /** The admin tab's CREATE POLL button, which posts a fixed poll. */
    method ClickCreatePoll(now: string)
      requires Valid()
      modifies this
      ensures Valid() && activeTab == Polls
      ensures poll == NewPoll(now, "Upcoming Night Layout?", ["Neon Heights", "Carbon Valley", "Thunder Road"]) && Tallied(poll)
      ensures old(activeTab) == Polls ==> view == old(view)
      ensures old(activeTab) != Polls ==> fresh(view) && view.votedId == None
    {
      PostPoll(now, "Upcoming Night Layout?", ["Neon Heights", "Carbon Valley", "Thunder Road"]);
    }

    /** A click on the k-th option button of the mounted view: the view's
        guard decides, and a vote that passes it reaches `HandleVote`. */
    method ClickOption(k: nat)
      requires Valid() && activeTab == Polls && k < |poll.options|
      modifies this, view
      ensures Valid()
      ensures activeTab == Polls && view == old(view)
      ensures old(view.Locked()) ==> poll == old(poll) && view.votedId == old(view.votedId)
      ensures !old(view.Locked()) ==>
        view.votedId == Some(old(poll).options[k].id) && poll == Vote(old(poll), old(poll).options[k].id)
      ensures Tallied(old(poll)) ==> Tallied(poll)
      ensures |view.Emitted| <= 1
    {
      var optId := poll.options[k].id;
      var fired := view.HandleVote(optId);
      if fired.Some? {
        var p := poll;
        assert HasOption(p.options, optId);
        if Tallied(p) {
          VotePreservesTally(p, optId);
        }
        HandleVote(fired.value);
      }
      OneVotePerView(view);
    }
  }
}
