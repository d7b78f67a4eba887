# Code-flow forum core in Dafny

A Dafny model of the logic at the heart of a question-and-answer forum: the
vote ledger and the counters it keeps on questions and answers, the
reputation points that votes, new answers and deletions earn, the answer
listing with its sort orders and pages, the OAuth sign-in that finds or
creates a user and links a provider account, the input schemas, and the small
rules inside the user interface (tag entry, sidebar highlighting, the home
filter, avatar initials, search-result links and the error/empty/content
choice of list pages).

The stores are the fields of one class, `Database.Store`: questions, answers
and users keyed by id, and votes, accounts, interactions and the queue of
calls deferred with `after(...)` as sequences. Each server action is a
function from a snapshot (`Database.Db`) to a `Step` (new snapshot and
result), and a method that performs the same action step by step on a
`Store` and is proved to end in exactly that step. A transaction is one step;
every failure is detected before the first write, so an aborted action
leaves every store as it was. A deferred call is queued by the action and run
later by `InteractionAction.RunNextDeferred`.

The store invariant `Database.Consistent` says: at most one vote per
(voter, target, target type); every vote points at an existing target; each
`upvotes`/`downvotes` counter equals the number of votes of that type on its
target; each question's `answers` counter equals its number of answers; and
emails are unique. Every action of the model keeps it.

Modules, one per source file: `Model` (types/model.d.ts, types/action.d.ts,
database/*.model.ts), `Routes` (constants/routes.ts), `Database` (the stores
and the invariant), `Validation` (lib/validation.ts), `VoteAction`,
`InteractionAction`, `AnswerAction` (lib/actions/*), `OAuthSignIn`
(app/api/auth/signin-with-oauth/route.ts), `QuestionForm`, `NavLinks`,
`HomeFilter`, `UserAvatar`, `GlobalResult` and `DataRenderer` (components/).

## Model

| member | source | states |
|---|---|---|
| Routes.RoutesDistinct | constants/routes.ts:10-12 | profile, question and tag pages never share a path, whatever the ids, and none is the home page |
| Database.EmptyIsConsistent | database/question.model.ts:12-15 | an empty store, where counters start at 0, satisfies the store invariant |
| Database.CountVotesConcat | database/vote.model.ts:9-12 | the number of votes of one type on one target adds up over concatenated vote lists |
| Validation.EmailRegexIsShape | lib/validation.ts:5 | the email regex matches exactly the non-empty texts without white space that have one '@' with something before it, followed by a '.' that is neither first nor last after the '@' |
| Validation.EmailIssues | lib/validation.ts:7-10 | no issue exactly when the text has that email shape |
| Validation.SignInIssues | lib/validation.ts:12-15 | sign-in accepts exactly a valid email and a password of at least 8 characters |
| Validation.UsernameIssues | lib/validation.ts:18-24 | a username is accepted iff it has 3 to 30 characters, all ASCII letters, digits or '_' |
| Validation.NameIssues | lib/validation.ts:25-29 | a name is accepted iff it has 1 to 50 characters, all ASCII letters or white space |
| Validation.SignUpPasswordIssues | lib/validation.ts:31-37 | a sign-up password is accepted iff it has at least 8 characters and an upper-case letter, a lower-case letter, a digit and one of `@$!%*?&` |
| Validation.SignUpIssues | lib/validation.ts:17-38 | the sign-up form is accepted iff every field is |
| Validation.SignUpPasswordPassesSignIn | lib/validation.ts:14 | every accepted sign-up password also passes the sign-in length rule |
| Validation.TagIssues | lib/validation.ts:46-52 | every tag has 1 to 30 characters |
| Validation.AskQuestionIssues | lib/validation.ts:40-55 | a question is accepted iff the title has 5 to 140 characters, the body is non-empty and there are 1 to 3 tags of 1 to 30 characters |
| Validation.AccountPasswordIssues | lib/validation.ts:72-86 | an absent password is accepted; a present one iff it has 6 to 100 characters and an upper-case letter, a lower-case letter, a digit and a character that is neither |
| Validation.OptionalUrlIssues | lib/validation.ts:71 | an optional URL is accepted iff it is absent or passes the URL check |
| Validation.AccountIssues | lib/validation.ts:68-89 | an account is accepted iff user id, name, provider and provider account id are non-empty, the image (if any) is a URL and the password (if any) is accepted |
| Validation.OAuthIssues | lib/validation.ts:91-100 | the OAuth payload is accepted iff the provider is github or google, the provider account id and name are non-empty, the username has at least 3 characters, the email is valid and the image (if any) is a URL |
| Validation.PaginationIssues | lib/validation.ts:110-116 | page and page size, defaulting to 1 and 10, must both be positive; absent ones are always accepted |
| Validation.AnswerIssues | lib/validation.ts:126-128 | an answer needs at least 50 characters |
| Validation.CreateAnswerIssues | lib/validation.ts:130-132 | creating an answer also needs a non-empty question id |
| Validation.GetAnswersIssues | lib/validation.ts:134-136 | listing answers needs a question id and positive page and page size |
| Validation.CreateVoteIssues | lib/validation.ts:147-151 | a vote needs a non-empty target id |
| Validation.UpdateVoteIssues | lib/validation.ts:153-155 | a counter change is accepted iff the target id is non-empty and the change is -1, 0 or 1 |
| Validation.DeleteAnswerIssues | lib/validation.ts:186-188 | deleting needs a non-empty answer id |
| Validation.CreateInteractionIssues | lib/validation.ts:190-195 | an interaction needs non-empty action and author ids |
| VoteAction.FindVote | lib/actions/vote.action.ts:44-48 | the index found is the first vote carrying the (author, target, type) key; none means no vote carries it |
| VoteAction.BallotAt | lib/actions/vote.action.ts:44-48 | with one vote per key, the lookup of a vote's key finds that vote's type |
| VoteAction.IncCounter | lib/actions/vote.action.ts:115-122 | `$inc` adds the change to the counter of the vote type and leaves the other counter and every other document alone |
| VoteAction.VoteCountUpdated | lib/actions/vote.action.ts:101-132 | `updateVoteCount` succeeds iff the change is -1, 0 or 1 and the target exists; then only that counter moves, by the change; otherwise nothing changes |
| VoteAction.UpdateVoteCount | lib/actions/vote.action.ts:101-132 | the step-by-step `updateVoteCount` ends in exactly the state and result of `VoteCountUpdated` |
| VoteAction.BallotApplied | lib/actions/vote.action.ts:50-78 | on an existing target: a missing vote is appended with its counter +1, a repeated one removed with its counter -1, an opposite one flipped with the counters -1/+1; only that target's counters change and nothing is queued |
| VoteAction.VoteCast | lib/actions/vote.action.ts:19-99 | a cast fails with nothing changed when the target is missing; otherwise a new vote is appended and its counter rises by 1, a repeated vote is removed and its counter falls by 1, an opposite vote is flipped and the counters move by -1/+1; only that target's counters change and one interaction with the author of the target is queued |
| VoteAction.CreateVote | lib/actions/vote.action.ts:19-99 | the step-by-step `createVote` inside its transaction ends in exactly the step of `VoteCast` |
| VoteAction.VoteCastAsWritten | lib/actions/vote.action.ts:19-99 | `createVote` as written returns what the intended cast returns, and ends in the same store whenever the voter does not already hold the requested vote |
| VoteAction.RepeatedVoteNotRetractedAsWritten | lib/actions/vote.action.ts:50-61 | as written, a repeated vote keeps the vote and both counters, where the intended cast removes the vote and lowers its counter |
| VoteAction.AsWrittenDiffersOnRepeat | lib/actions/vote.action.ts:51 | the as-written cast and the intended cast end in different stores on every repeated vote |
| VoteAction.VoteCastToggles | lib/actions/vote.action.ts:44-78 | after a cast the keys stay unique, the voter's vote is none after a repeat and the requested type otherwise, and every other voter's vote is unchanged |
| VoteAction.VoteCastKeepsTally | lib/actions/vote.action.ts:50-78 | every counter still equals the number of votes of its type on its target |
| VoteAction.VoteCastKeepsLive | lib/actions/vote.action.ts:36-40 | votes only ever point at existing targets |
| VoteAction.VoteCastKeepsConsistent | lib/actions/vote.action.ts:19-99 | a cast keeps the whole store invariant |
| VoteAction.CastCounters | lib/actions/vote.action.ts:50-78 | each counter of the target moves by +1, -1 or 0 as the voter's vote before the cast dictates |
| VoteAction.CastTwiceFromNone | lib/actions/vote.action.ts:44-78 | a fresh vote cast twice leaves the vote collection exactly as it was |
| VoteAction.CastTwiceRestores | lib/actions/vote.action.ts:44-78 | casting the same vote twice, from no vote or from the same vote, restores both counters, all documents and every voter's vote |
| VoteAction.FlipKeepsTotal | lib/actions/vote.action.ts:54-61 | a flip keeps upvotes plus downvotes of the target |
| VoteAction.HasVoted | lib/actions/vote.action.ts:134-173 | no vote gives `success: false` and both flags false; a vote gives `success: true` and exactly the flag of its type |
| VoteAction.HasVotedAfterCast | lib/actions/vote.action.ts:147-169 | after a fresh or flipped vote `hasVoted` reports the requested type; after a repeated one it reports no vote |
| InteractionAction.IncReputation | lib/actions/interaction.action.ts:99 | `$inc` on one user's reputation; a missing user matches nothing |
| InteractionAction.ReputationApplied | lib/actions/interaction.action.ts:71-121 | each user gains exactly the points of the table: author points for the author, performer points for a performer who is not the author, nothing for anyone else |
| InteractionAction.PointsFor | lib/actions/interaction.action.ts:76-96 | the switch yields +2/+10 for an upvote, -1/-2 for a downvote, 0/+5 or 0/+10 for a post on a question or an answer, 0/-5 or 0/-10 for a deletion, 0/0 otherwise |
| InteractionAction.UpdateReputation | lib/actions/interaction.action.ts:71-121 | the step-by-step update ends with the users of `ReputationApplied` and every other store unchanged |
| InteractionAction.SelfInteraction | lib/actions/interaction.action.ts:98-102 | when the performer is the author, only that user changes, by the author points alone |
| InteractionAction.PostThenDeleteRestores | lib/actions/interaction.action.ts:88-93 | a deletion takes back exactly what the post of the same target type gave |
| InteractionAction.NeutralActionsChangeNothing | lib/actions/interaction.action.ts:94-95 | view, bookmark, edit and search leave every reputation unchanged |
| InteractionAction.ReputationKeepsEmails | lib/actions/interaction.action.ts:104-120 | reputation updates keep emails unique |
| InteractionAction.InteractionCreated | lib/actions/interaction.action.ts:18-69 | succeeds iff the action and author ids are non-empty; then one interaction with the performer as user is appended and reputations move by the table; otherwise nothing changes |
| InteractionAction.CreateInteraction | lib/actions/interaction.action.ts:18-69 | the step-by-step action ends in exactly the step of `InteractionCreated` |
| InteractionAction.InteractionKeepsConsistent | lib/actions/interaction.action.ts:38-55 | recording an interaction keeps the store invariant |
| InteractionAction.DeferredRun | lib/actions/vote.action.ts:80-87 | running the oldest deferred call removes it from the queue and touches neither votes, questions nor answers |
| InteractionAction.RunNextDeferred | lib/actions/vote.action.ts:80-87 | the step-by-step run ends in exactly `DeferredRun` of the old state |
| InteractionAction.DeferredRunKeepsConsistent | lib/actions/interaction.action.ts:18-69 | running any queued `createInteraction` (queued by the `after` calls of the vote and answer actions) keeps the store invariant |
| InteractionAction.CastTwiceQueues | lib/actions/vote.action.ts:80-87 | two casts of one vote queue the same interaction twice and change no reputation by themselves |
| InteractionAction.RunTwo | lib/actions/interaction.action.ts:18-69 | running two queued interactions applies the table twice |
| InteractionAction.UpvoteCastTwiceStillRewards | lib/actions/vote.action.ts:80-87 | an upvote cast and retracted leaves the votes as they were, yet once both interactions have run the author has 20 more points and the voter 4 more |
| AnswerAction.BeforeTotal | lib/actions/answer.action.ts:35-49 | every sort order compares any two answers |
| AnswerAction.BeforeTransitive | lib/actions/answer.action.ts:35-49 | every sort order is transitive |
| AnswerAction.Sorted | lib/actions/answer.action.ts:56 | the sorted list is ordered by the filter's sort criteria and is a permutation of its input |
| AnswerAction.OfQuestion | lib/actions/answer.action.ts:52-54 | the query keeps exactly the answers of the question, each as often as in the collection |
| AnswerAction.Window | lib/actions/answer.action.ts:57-58 | skip then limit gives the elements from `skip` on, at most `limit` of them |
| AnswerAction.Skip | lib/actions/answer.action.ts:32 | skip plus page size is page times page size |
| AnswerAction.GetAllAnswers | lib/actions/answer.action.ts:19-73 | fails iff validation fails; otherwise with defaults 1 and 10 the page is the window [skip, skip + pageSize) of the question's sorted answers, holds at most pageSize answers, all of the question, in order, the total is the question's answer count and `isNext` holds iff page × pageSize < total |
| AnswerAction.PagesArePrefix | lib/actions/answer.action.ts:57-58 | the first k pages laid end to end are the first k × n sorted answers |
| AnswerAction.Documents | lib/actions/answer.action.ts:52-54 | the stored answers listed in a given order of their ids, one document per id |
| AnswerAction.CountOfDocuments | lib/actions/answer.action.ts:52 | filtering the listed documents by question keeps as many as there are listed ids whose answer is on that question |
| AnswerAction.ListingCountsStoredAnswers | lib/actions/answer.action.ts:52 | over the stored answers, a valid listing's `totalAnswers` equals the question's `answers` counter whenever the store keeps that counter right |
| AnswerAction.AnswerCreated | lib/actions/answer.action.ts:75-137 | fails with nothing changed on invalid input and with NotFound on a missing question; on success adds one answer with the given content, question and author, raises the question's `answers` counter by 1 and queues a 'post' interaction |
| AnswerAction.CreateAnswer | lib/actions/answer.action.ts:75-137 | the step-by-step action ends in exactly the step of `AnswerCreated` |
| AnswerAction.AnswerCreatedAsWritten | lib/actions/answer.action.ts:75-137 | `createAnswer` as written returns what the intended creation returns and ends in the same store except that the questions, and so the `answers` counter, are left as they were |
| AnswerAction.CreateAsWrittenBreaksCount | lib/actions/answer.action.ts:112-113 | as written, the question's counter stays while it gains an answer, breaking the count |
| AnswerAction.AnswerCreatedKeepsConsistent | lib/actions/answer.action.ts:99-113 | the intended creation keeps the store invariant |
| AnswerAction.VotesWithout | lib/actions/answer.action.ts:160 | the filtered votes are exactly those not on the answer |
| AnswerAction.VotesWithoutUnique | lib/actions/answer.action.ts:160 | removing votes keeps one vote per key |
| AnswerAction.AnswerDeleted | lib/actions/answer.action.ts:139-179 | NotFound on a missing answer, Unauthorized for anyone but its author, nothing changed in both cases; otherwise the answer and its votes go, the question's counter falls by 1 and a 'delete' interaction is queued |
| AnswerAction.DeleteAnswer | lib/actions/answer.action.ts:139-179 | the step-by-step action ends in exactly the step of `AnswerDeleted` |
| AnswerAction.AnswerDeletedAsWritten | lib/actions/answer.action.ts:139-179 | `deleteAnswer` as written returns what the intended deletion returns and ends in the same store except that the questions and the votes are left as they were |
| AnswerAction.DeleteAsWrittenBreaksCount | lib/actions/answer.action.ts:158 | as written, the question's counter ends one above its number of answers |
| AnswerAction.DeleteAsWrittenLeavesVotes | lib/actions/answer.action.ts:160 | as written, a vote on the deleted answer stays and points at nothing |
| AnswerAction.AnswerDeletedKeepsConsistent | lib/actions/answer.action.ts:148-171 | the intended deletion keeps the store invariant |
| OAuthSignIn.UserWithEmail | app/api/auth/signin-with-oauth/route.ts:41 | the user found has the email; none is found iff no user has it |
| OAuthSignIn.UserWithEmailUnique | app/api/auth/signin-with-oauth/route.ts:41 | with unique emails the user found is the one with that email |
| OAuthSignIn.Refreshed | app/api/auth/signin-with-oauth/route.ts:55-68 | the name becomes the payload's; the image becomes the payload's only if it has one; nothing else changes |
| OAuthSignIn.RefreshedIdempotent | app/api/auth/signin-with-oauth/route.ts:58-61 | refreshing with the same payload again changes nothing |
| OAuthSignIn.UsersAfter | app/api/auth/signin-with-oauth/route.ts:41-68 | defined only when the create is not rejected: a new email adds one user with the slugified, non-empty username; a known email refreshes that user; emails stay unique and the email now belongs to a user |
| OAuthSignIn.AccountsAfter | app/api/auth/signin-with-oauth/route.ts:70-89 | the accounts are unchanged iff one already links the user, provider and provider account id, else exactly that account is appended; afterwards such an account exists |
| OAuthSignIn.OAuthSignedIn | app/api/auth/signin-with-oauth/route.ts:18-100 | succeeds iff the payload is valid and, for a new email, the username does not slugify to the empty string (which `username: { required: true }` rejects, giving the `username` validation error); on any failure nothing changes; only users and accounts change; a new email creates one user with a slugified username, a known email refreshes that user; emails stay unique; an account is appended iff none links that user, provider and provider account id |
| OAuthSignIn.SignInWithOAuth | app/api/auth/signin-with-oauth/route.ts:18-100 | the step-by-step endpoint, including the abort of a rejected `User.create`, ends in exactly the step of `OAuthSignedIn` |
| OAuthSignIn.FindOrCreateUser | app/api/auth/signin-with-oauth/route.ts:41-68 | fails, writing nothing, iff a new user would get an empty slugified username; otherwise the users become `UsersAfter` of the old users and the id returned is a user with the payload's email; no other collection changes |
| OAuthSignIn.UpdateChangedFields | app/api/auth/signin-with-oauth/route.ts:56-67 | writing only the differing fields leaves the user exactly `Refreshed`, and nothing else changes |
| OAuthSignIn.SignInIdempotent | app/api/auth/signin-with-oauth/route.ts:41-89 | signing in again with the same payload leaves every store unchanged |
| OAuthSignIn.SignInKeepsConsistent | app/api/auth/signin-with-oauth/route.ts:41-89 | the sign-in keeps the store invariant |
| QuestionForm.Trim | components/forms/question.from.tsx:83 | the result is the text between the leading and trailing white space, and starts and ends without white space |
| QuestionForm.TrimIdempotent | components/forms/question.from.tsx:83 | trimming twice is trimming once |
| QuestionForm.KeyDownRules | components/forms/question.from.tsx:77-101 | a key other than Enter changes nothing; a trimmed text that is non-empty, under 15 characters and new is appended with input and error cleared; longer than 15 sets the too-long error; a duplicate of at most 15 sets the duplicate error; a new text of exactly 15 does nothing, and neither does a blank text that is not already a tag |
| QuestionForm.KeyDownKeepsTagsWellFormed | components/forms/question.from.tsx:85-86 | adding keeps the tags free of duplicates, trimmed, non-empty and under 15 characters |
| QuestionForm.Without | components/forms/question.from.tsx:104 | `filter` keeps every entry other than the tag with its multiplicity and drops every copy of the tag; an absent tag leaves the list as it was |
| QuestionForm.WithoutIsSubsequence | components/forms/question.from.tsx:104 | the remaining tags keep their order |
| QuestionForm.TagRemoved | components/forms/question.from.tsx:103-114 | removal filters the tags, keeps the input and sets the required error when no tag is left |
| QuestionForm.AddThenRemove | components/forms/question.from.tsx:85-106 | removing the tag just added restores the list |
| QuestionForm.KeyDown | components/forms/question.from.tsx:77-101 | Enter either leaves the tags as they were or appends the trimmed input |
| QuestionForm.TagField.HandleInputKeyDown | components/forms/question.from.tsx:77-101 | the field's new state is `KeyDown` of the old |
| QuestionForm.TagField.HandleTagRemove | components/forms/question.from.tsx:103-114 | the field's new state is `TagRemoved` of the old |
| NavLinks.IsActive | components/navigation/nav-links.tsx:19-20 | a highlighted link's route occurs in the path; a route of at most one character is highlighted only when it equals the path |
| NavLinks.HomeActiveOnlyAtHome | components/navigation/nav-links.tsx:19-20 | the home link is highlighted only on the home page |
| NavLinks.ActiveUnderRoute | components/navigation/nav-links.tsx:19-20 | a path that starts with a route longer than '/' highlights its link |
| NavLinks.Rewrite | components/navigation/nav-links.tsx:22-23 | with a user, the '/profile' route becomes that user's profile page; other links are unchanged |
| NavLinks.RewriteOnce | components/navigation/nav-links.tsx:22-23 | a rewritten link is never rewritten again |
| NavLinks.RenderNavLinks | components/navigation/nav-links.tsx:18-25 | the render as written yields the mapped items and leaves the shared links rewritten in place |
| NavLinks.RenderedMap | components/navigation/nav-links.tsx:18-25 | when no link is dropped, each item has the rewritten route, the caption and the activity computed from the route before the rewrite |
| NavLinks.NavItemsProfile | components/navigation/nav-links.tsx:22-24 | the intended render has 7 links with the profile link pointing at the user's profile, or 6 links without any profile link when there is no user |
| NavLinks.StaleProfileLink | components/navigation/nav-links.tsx:22-23 | after one render for user `a`, any later render, even signed out, shows 7 links and the profile link of `a` |
| HomeFilter.FiltersAreLowerCase | components/shared/home-filter.tsx:12-17 | each filter value is its own lower case |
| HomeFilter.InitialActive | components/shared/home-filter.tsx:22-23 | the active filter starts as the URL parameter, or '' when there is none |
| HomeFilter.NextActive | components/shared/home-filter.tsx:28-36 | a click clears the active filter when it is the clicked one, else makes the clicked one active |
| HomeFilter.ClickRequest | components/shared/home-filter.tsx:28-43 | clicking the active filter removes the 'filter' key; another filter sets 'filter' to its lower case |
| HomeFilter.TwoClicksRestore | components/shared/home-filter.tsx:28-43 | two clicks on one filter restore the active filter iff it was that filter or none; from another filter they end with none |
| HomeFilter.HighlightAfterClick | components/shared/home-filter.tsx:56 | after a click at most the clicked button is highlighted, and exactly it when it was not active |
| HomeFilter.FilterBar.constructor | components/shared/home-filter.tsx:22-23 | the bar starts with the URL's filter and no URL pushed |
| HomeFilter.FilterBar.HandleTypeClick | components/shared/home-filter.tsx:25-46 | each click updates the active filter by `NextActive` and pushes exactly one URL |
| HomeFilter.ClickTwice | components/shared/home-filter.tsx:25-46 | two clicks push two URLs and, from no filter, first set then remove the parameter |
| UserAvatar.JoinSplit | components/shared/user-avatar.tsx:25 | splitting on ' ' loses nothing: joining the pieces with ' ' gives the name back |
| UserAvatar.FirstCharsAreWordStarts | components/shared/user-avatar.tsx:25-27 | the first characters of the pieces are exactly the characters that start a word; empty pieces contribute nothing |
| UserAvatar.Initials | components/shared/user-avatar.tsx:24-29 | the initials are the first two of the upper-cased first characters of the space-separated words, two whenever there are two such characters |
| UserAvatar.InitialsAreWordStarts | components/shared/user-avatar.tsx:24-29 | the initials are the upper-cased starts of the first two words, at most 2 characters, none a space |
| UserAvatar.SpacesIgnored | components/shared/user-avatar.tsx:25-27 | leading and doubled spaces do not change the initials |
| UserAvatar.AvatarOf | components/shared/user-avatar.tsx:32-50 | the avatar links to the user's profile and shows the picture iff the image URL is non-empty, else the initials |
| GlobalResult.RenderLink | components/shared/global-result.tsx:49-62 | questions and answers link to the question page, users to the profile, tags to the tag page, anything else to '/' |
| GlobalResult.LinkDeterminesTarget | components/shared/global-result.tsx:49-62 | a link of a known kind determines the id, and the kind up to question/answer |
| GlobalResult.SearchList.constructor | components/shared/global-result.tsx:18-19 | the list starts empty and loading, with no toast |
| GlobalResult.SearchList.RunEffect | components/shared/global-result.tsx:24-47 | without a present, non-empty `global` nothing changes; with one, loading ends and the list becomes the response's data (possibly undefined), or empty with the error message toasted when the search threw |
| GlobalResult.RerunSameResponse | components/shared/global-result.tsx:24-47 | rerunning the effect with the same response leaves the same list, adding one more toast only for a repeated error |
| DataRenderer.Render | components/shared/data-renderer.tsx:25-63 | failure shows the error state (message or default title, stringified details or default message); success without data shows the empty state; otherwise the render of exactly the data |
| DataRenderer.AnswerListShown | components/shared/data-renderer.tsx:47-62 | on the question page, after a successful `getAllAnswers`, the answer section shows the cards of exactly the page's answers iff the page starts before the question's last answer, and otherwise the page's empty texts |

## Left out

- Authentication and authorisation (`action(...)`, NextAuth sessions): the signed-in user is a parameter of each action.
- `revalidatePath`, `JSON.parse(JSON.stringify(...))` of results, `handleError`'s response formatting: errors are the `Model.Error` values only.
- Concurrency: each action is one atomic step, and deferred calls run in queue order whenever `RunNextDeferred` is called; their interleaving with later reads is not modelled.
- `deleteAnswer` runs without a transaction; since its only failures come before its first write, it is still one step here.
- Fresh ObjectIds and creation times are parameters (`newId`, `newUserId`, `now`), with freshness as a precondition.
- OAuthSignIn.OAuthSignedIn: requires unique emails among users, which the database's unique index guarantees and which the store invariant includes.
- zod's `.url()` check, `slugify` and `JSON.stringify` are function parameters; `lib/url` (`formUrlQuery`, `removeKeysFromUrlQuery`) is not part of this model, so a pushed URL is recorded as the request made to it.
- Strings are sequences of Unicode scalar values, where JavaScript strings are sequences of UTF-16 code units: a character above U+FFFF counts 1 here and 2 in JavaScript, so the zod `.min`/`.max` length bounds and the `word[0]` of the avatar initials differ from the code on such input. Upper and lower case are mapped for ASCII letters only, and `\s` is the JavaScript white-space set without Unicode normalisation.
- JavaScript numbers are unbounded integers; a non-integer page, page size or counter change is not representable.
- AnswerAction.Sorted: the order among answers the sort criteria tie on is one fixed choice; the contract states only the criteria order and the permutation, which is all the database promises.
- The schemas no core action uses (`UserSchema`, `EditQuestionSchema`, `AIAnswerSchema`, the user and tag queries) and the other server actions and pages.
- The rendering itself (markup, styles, icons); `globalSearch` is not part of this model, so its response is a parameter of the search effect.
- Mongoose's `required` validator is modelled only where a core action can reach it with an empty value: the slugified username of a new OAuth user. Its error is represented as `ValidationError("username")`.
- The form submit handler of the question form.

## Findings

| source | as written | input that shows it | evidently intended | confidence | as-written member | corrected member |
|---|---|---|---|---|---|---|
| lib/actions/vote.action.ts:51 | compares `existingVote.type`, a field votes do not have, so the retract branch is never taken | a user upvotes a question, then upvotes it again: the vote stays and both counters end where they were | compare `existingVote.voteType`, so the second upvote removes the vote and lowers `upvotes` | high, not executed | VoteAction.RepeatedVoteNotRetractedAsWritten | VoteAction.VoteCast |
| lib/actions/answer.action.ts:112 | increments `question.answer`, a path the schema does not declare, so the save drops it | a valid answer to an existing question with `answers = 0`: the question keeps `answers = 0` with one answer | increment `answers` | high, not executed | AnswerAction.CreateAsWrittenBreaksCount | AnswerAction.AnswerCreated |
| lib/actions/answer.action.ts:158 | `$inc` on `answer`, not `answers` | the author deletes the only answer of a question with `answers = 1`: the counter stays 1 with no answer | decrement `answers` | high, not executed | AnswerAction.DeleteAsWrittenBreaksCount | AnswerAction.AnswerDeleted |
| lib/actions/answer.action.ts:160 | deletes votes by `targetId`/`targetType: 'Answer'`, fields votes do not have, so no vote matches | an upvoted answer deleted by its author: its vote remains and points at no answer | delete the votes with `actionId` = the answer and `actionType: 'answer'` | medium, not executed | AnswerAction.DeleteAsWrittenLeavesVotes | AnswerAction.AnswerDeleted |
| components/navigation/nav-links.tsx:22-23 | assigns `link.route` on the shared `sidebarLinks` entry | render for user `a`, then for a signed-out visitor: the profile link of `a` is still shown | compute the rewritten route per render, leaving the shared links untouched | high, not executed | NavLinks.StaleProfileLink | NavLinks.NavItemsProfile |
