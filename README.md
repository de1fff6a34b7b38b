# TrackX community hub: poll and post-composer state, in Dafny

This project models the client-side state logic of the TrackX community app's
poll screen and post composer, without any of the rendering.

- **PollTally** (`poll_tally.dfy`) holds the `Poll` record and the pure updates on it:
  - the vote update of `handleVote`;
  - the fresh poll built by `postPoll`, whose options are `opt-0 … opt-(n-1)` with zero votes;
  - the percentage shown next to each option.

  Its lemmas prove vote conservation. They also prove that a vote for an unknown id still raises the
  total, that new poll ids are distinct, and that displayed percentages stay in 0..100.
- **PollScreen** (`poll_screen.dfy`) holds the component state, as two classes:
  - `App` holds `activeTab` and `poll`, and the currently mounted `PollView`.
  - `PollView` holds the vote-once guard over `votedId`.

  The poll view is rendered only while the polls tab is active, so its `votedId` is dropped when another
  tab is chosen, and a fresh view starts when the polls tab is entered again.
- **Composer** (`composer.dfy`) holds the `CreatePost` sheet (`isOpen`, `content`, `image`), its handlers,
  and a model of `String.prototype.trim` over the ECMAScript whitespace and line-terminator characters.
- **Options** (`options.dfy`) holds `Option` and JavaScript truthiness of `string | null`.

Conventions:
- JavaScript truthiness is modelled as the code uses it: `if (votedId)`, `if (url)` and `image || undefined`
  all treat the empty string like null. As a result, a `PollView` lets clicks through again after a vote
  for the id `''`. `OneVotePerView` therefore states at-most-once for views that only ever see non-empty ids.
  Every id the app creates is non-empty, and `App.Valid` keeps that so.
- `Date.now().toString()` is the `now` parameter of `App.PostPoll`.
- The answer of `prompt()` is the `url` parameter of `CreatePost.AddPhoto`. `None` stands for a cancelled prompt.
- The `onVote` and `onPost` callbacks are out-parameters: `fired` and `posted`.

## Model

| member | source | states |
|---|---|---|
| PollTally.InitialPoll | src/App.tsx:155-165 | definition of the starting poll; InitialPollTallied states its property |
| PollTally.Vote | src/App.tsx:168-172 | definition of the `handleVote` update, with its per-option step `Bump` mapped by `VoteOptions`; VoteEffect, VotePreservesTally and VoteForUnknownId state its properties |
| PollTally.OptionId | src/App.tsx:179 | definition of the id `opt-${i}`; OptionIdInjective states its property |
| PollTally.NewPoll | src/App.tsx:176-182 | definition of the poll `postPoll` installs, with its options built by `FreshOptions`; NewPollShape and NewPollTallied state its properties |
| PollTally.Percentages | src/App.tsx:80-81 | definition of the percentages rendered per option; DisplayedPercentagesBounded states their bounds |
| PollTally.VoteEffect | src/App.tsx:167-172 | a vote raises `totalVotes` by exactly one and each option whose id matches by one; other options, option order, count, ids, texts, `id`, `question` and `active` are unchanged |
| PollTally.SumAfterVote | src/App.tsx:171 | the sum of option counts grows by exactly the number of options carrying the voted id |
| PollTally.OccursOnce | src/App.tsx:171 | with unique ids a present id matches exactly one option |
| PollTally.OccursNever | src/App.tsx:171 | an id absent from the options matches none |
| PollTally.VotePreservesTally | src/App.tsx:167-173 | if ids are unique, the id is present and the counts sum to `totalVotes`, the same holds after the vote |
| PollTally.VoteForUnknownId | src/App.tsx:170-171 | a vote for an id matching no option leaves every option as it was but still raises the total, so a tallied poll stops being tallied |
| PollTally.InitialPollTallied | src/App.tsx:155-165 | the starting poll has distinct ids and 45 + 32 + 68 = 145 |
| PollTally.Decimal | src/App.tsx:179 | the decimal rendering of `i` in `opt-${i}` is never empty and is one digit exactly below ten |
| PollTally.DecimalInjective | src/App.tsx:179 | distinct indices render as distinct decimals |
| PollTally.OptionIdInjective | src/App.tsx:179 | distinct indices give distinct ids `opt-i` |
| PollTally.NewPollShape | src/App.tsx:176-182 | `postPoll(q, opts)` builds a poll with the given id and question, `active`, zero total, and option i equal to `{id: "opt-" + i, text: opts[i], votes: 0}` |
| PollTally.NewPollTallied | src/App.tsx:179-181 | a new poll has distinct option ids and its zero total equals the sum of its zero counts |
| PollTally.Percentage | src/App.tsx:81 | 0 when there are no votes; otherwise the nearest integer to 100 * votes / total with halves rounded up |
| PollTally.PercentageBounds | src/App.tsx:81 | for 0 <= votes <= total the percentage lies in 0..100 |
| PollTally.PercentageMonotone | src/App.tsx:81 | more votes never show a smaller percentage |
| PollTally.PercentageExtremes | src/App.tsx:81 | all the votes show 100, none shows 0 |
| PollTally.VotesAtMostSum | src/App.tsx:20-22 | no option holds more votes than the sum of all counts |
| PollTally.DisplayedPercentagesBounded | src/App.tsx:80-81 | in a poll whose counts sum to at most its total, every percentage rendered lies in 0..100 |
| PollScreen.PollView.constructor | src/App.tsx:57 | a mounted view starts with `votedId` null and has called `onVote` never |
| PollScreen.PollView.Locked | src/App.tsx:86 | in a consistent view the option buttons are disabled exactly when the last `onVote` call carried a non-empty id |
| PollScreen.PollView.HandleVote | src/App.tsx:59-63 | once `votedId` is truthy a click changes nothing and calls no `onVote`; otherwise it sets `votedId` to the clicked id and calls `onVote` once with it |
| PollScreen.OneVotePerView | src/App.tsx:59-63 | a view fed only non-empty ids calls `onVote` at most once, and after it has, its buttons are locked |
| PollScreen.App.constructor | src/App.tsx:134-165 | the app starts on the feed tab with the tallied starting poll |
| PollScreen.App.SelectTab | src/App.tsx:134 | `setActiveTab(t)` sets exactly the tab; the poll is untouched and the poll view is kept, mounted fresh, or dropped as the tab requires |
| PollScreen.App.ClickFeed | src/App.tsx:335 | the Feed button selects the feed tab, keeps the poll and unmounts the poll view |
| PollScreen.App.ClickPolls | src/App.tsx:344 | the Polls button selects the polls tab, keeps the poll, and keeps the mounted view or mounts a fresh one |
| PollScreen.App.ClickAdmin | src/App.tsx:353 | the Admin button selects the admin tab, keeps the poll and unmounts the poll view |
| PollScreen.App.HandleVote | src/App.tsx:167-173 | the poll becomes `Vote(poll, optId)`; the tab and view are unchanged |
| PollScreen.App.PostPoll | src/App.tsx:175-184 | the poll becomes the tallied `NewPoll(now, q, opts)` and the polls tab is shown |
| PollScreen.App.ClickCreatePoll | src/App.tsx:293 | the CREATE POLL button installs the tallied fixed three-option poll and shows the polls tab with a freshly mounted, unvoted view when pressed from another tab |
| PollScreen.App.ClickOption | src/App.tsx:85 | a click on an option votes for that option only if the view has not voted yet; otherwise nothing changes; the tally invariant is kept and the view calls `onVote` at most once |
| Options.Truthy | src/App.tsx:60 | definition of JavaScript truthiness of a possibly-null string (also used at src/App.tsx:86 and src/CreatePost.tsx:112); PollView.Locked, PollView.HandleVote and CreatePost.AddPhoto state what it decides |
| Composer.Trim | src/CreatePost.tsx:15 | definition of `content.trim()`; TrimEmptyIffBlank and TrimIdempotent state its properties |
| Composer.TrimStart | src/CreatePost.tsx:15 | the result is the suffix of the text starting at its first non-whitespace character, and everything dropped is whitespace |
| Composer.TrimEnd | src/CreatePost.tsx:15 | the result is the prefix of the text ending at its last non-whitespace character, and everything dropped is whitespace |
| Composer.TrimEmptyIffBlank | src/CreatePost.tsx:15 | `content.trim()` is empty exactly when the content is empty or all whitespace |
| Composer.TrimIdempotent | src/CreatePost.tsx:15 | a trimmed text has no whitespace at either end, and trimming it again changes nothing |
| Composer.CreatePost.constructor | src/CreatePost.tsx:10-12 | the composer starts closed with empty content and no image |
| Composer.CreatePost.Open | src/CreatePost.tsx:25 | opening sets `isOpen` only |
| Composer.CreatePost.Close | src/CreatePost.tsx:73 | closing clears `isOpen` and keeps the draft text and image |
| Composer.CreatePost.EditContent | src/CreatePost.tsx:81 | typing replaces `content` only |
| Composer.CreatePost.AddPhoto | src/CreatePost.tsx:111-112 | a non-empty prompt answer becomes the image; a cancelled or empty answer leaves everything as it was |
| Composer.CreatePost.RemoveImage | src/CreatePost.tsx:100 | removing sets `image` to '' only |
| Composer.CreatePost.SubmitDisabled | src/CreatePost.tsx:131 | the Post button is disabled exactly when the content is blank |
| Composer.CreatePost.Submit | src/CreatePost.tsx:14-20 | blank content is refused and nothing changes, exactly when the button is disabled; otherwise `onPost` is called once with the untrimmed content and the image (none when it is ''), and the sheet is closed with content and image cleared |

## Left out

- Percentage: the rounding is exact, halves rounded up. The code computes `(votes / total) * 100` in binary floating point and then `Math.round`. Near an exact .5 (29 votes out of 200, say) the double can fall just below the half, and the code then shows one less. Agreement at those boundaries is not claimed.
- Vote counts are unbounded naturals. Loss of precision in JavaScript numbers above 2^53 is not modelled.
- All JSX rendering, styling and framer-motion animation are left out. That includes the exit animation of `AnimatePresence`, which keeps an unmounting view on screen for a moment.
- The `feed` state and `FeedItem` are left out: nothing in the code changes them. The admin text inputs are uncontrolled and are not read, since the CREATE POLL button posts fixed arguments.
- The optional `isAdmin` prop of `PollView` is dropped: the app never passes it and the view never reads it.
- The `active` flag of a poll is kept as a field but nothing reads it.
- `Date.now()` and `window.prompt()` are foreign calls. Their results are method parameters.
- `src/DriverProfileModal.tsx` and `src/SystemFeedCard.tsx` are not part of this model: they only display data.
- `puppeteer_test.js` is not part of this model: it is browser automation.
- Text is a sequence of Unicode scalar values, whereas JavaScript strings are UTF-16 code units, so a draft holding an unpaired surrogate cannot be represented. Trimming is unaffected, since every trimmable character lies in the Basic Multilingual Plane.
- React's scheduling of state updates is not modelled. Each handler's updates are applied together, as one step.
