# Study-partner matching, modelled in Dafny

This project models the logic of a small study-partner app written in
TypeScript/React. The model covers:

- **Compatibility score** (`getMatchScore`). It has five pass/fail criteria. Study interest counts three times, and it is expanded through the `INTEREST_SYNONYMS` table. Dream school, current school and timeframe count once each, and so does major.
- **Match deck** (`matchedProfiles`). Friends are left out, only scores of at least 50 are kept, and the deck is sorted by score with a stable sort. A swipe cursor walks the deck.
- **Application context operations**: friends, liked profiles, group chats, private chats, the stored user list and the duplicate-email rule of sign-up.
- **Small view-level rules**:
  - the recency-ordered chat list with its preview line, initials, send guard and friend picker;
  - the group-chat guards and member toggle;
  - the header's profile search;
  - the sign-up form's age coercion and submit validation.

Everything is a pure function over immutable datatypes. Clock readings (`Date.now()`, `toISOString()`) are parameters. The score is kept as an integer weight `w` in [0, 7]. The percentage shown is `100w/7`, and every threshold test is decided exactly on `w`.

Modules, one per file:

- strings.dfy (`Strings`): ASCII `toLowerCase`, `trim`, `includes`, `split`, `join`
- seqs.dfy (`Options`, `Seqs`): `Option`, `Array.prototype.filter`, stable descending sort
- types.dfy (`Types`): Profile, User, Message, GroupChat, PrivateChat
- synonyms.dfy (`Synonyms`): the synonym table and one-hop interest expansion
- scoring.dfy (`Scoring`): the five criteria, the weight, thresholds and badges
- deck.dfy (`Deck`): the deck, the swipe cursor and the rebuild after a right swipe
- session.dfy (`Session`): the application context's list operations and sign-up
- messages.dfy (`Messages`): the private-message view
- groupchats.dfy (`GroupChats`): the group-chat view
- search.dfy (`Search`): the header's profile search
- signup.dfy (`SignupForm`): the sign-up form

### Behaviour of the code worth knowing

- **Empty interest tokens match.** A viewer with an empty interest field gets one empty token, because `split` always yields at least one piece. The empty token is a substring of everything, so the study criterion passes. The same holds for a trailing comma (`EmptyInterestPasses`, `TrailingCommaPasses`).
- **The "Study" badge** shows whether the overall score is at least 30, which means weight at least 3. It does not show the study criterion itself (`StudyBadgeIff`, `StudyBadgeWithoutStudy`).
- **The Dream school, School and Major badges** lower-case their fields but do not trim them, while those three criteria do trim. A badge implies its criterion, but not the reverse (`FieldBadgeImpliesMatch`, `FieldMatchWithoutBadge`). The timeframe criterion trims neither side (`TimeNotTrimmed`).
- **Group chats are never re-sorted** when a message arrives (`UpdateNeverReorders`). Private chats are re-sorted.
- **A private-chat send reaches the front only when its clock beats the chats ahead of it.** The list is re-sorted by `lastActivity`, and the sort is stable. The updated chat reaches the front when `now` is newer than every chat ahead of it and no older than every chat behind it. If the clock equals the activity time of a chat ahead of it, the updated chat stays behind that chat (`SendAtTieStaysBehind`). A chat that is already first stays first at a tie. `SendMovesChatToFront` proves the move under the simpler condition that `now` is strictly newer than every other chat.

## Model

| member | source | states |
|---|---|---|
| Scoring.Tokens | views/Match.tsx:18-19 | an interest field becomes at least one token; every token is trimmed, lower-case and free of commas |
| Scoring.TokensOfJoin | views/Match.tsx:18-19 | tokenising a comma-join of tokens already in that form gives the tokens back |
| Scoring.TokensIgnoreCase | views/Match.tsx:18-19 | tokens do not depend on the case of the field |
| Scoring.TrailingCommaGivesEmptyToken | views/Match.tsx:18-19 | a field ending in a comma has an empty token |
| Synonyms.Lookup | views/Match.tsx:25-26 | the direct lookup is absent exactly for non-keys, and otherwise returns the list the table stores under that key |
| Synonyms.LookupIsMapLookup | utils/synonyms.ts:1-41 | looking up the ordered table agrees with its map view |
| Synonyms.AsMap | utils/synonyms.ts:1-41 | the map view has exactly the table's keys |
| Synonyms.ReverseIff | views/Match.tsx:29-34 | reverse expansion of t is exactly the keys whose list mentions t, together with those lists |
| Synonyms.Expand | views/Match.tsx:22-35 | the expanded set contains every token's own expansion: the token, its direct list and its reverse expansion |
| Synonyms.ExpandOnlyContributions | views/Match.tsx:22-35 | nothing enters the expanded set unless some token contributes it |
| Synonyms.UnknownTermExpandsToItself | views/Match.tsx:22-35 | a term that is neither a key nor listed anywhere expands to itself alone |
| Synonyms.TableKeysDistinct | utils/synonyms.ts:1-41 | no key of the table is declared twice |
| Synonyms.TableKeysLower | utils/synonyms.ts:1-41 | every key is lower-case, matching the lower-cased tokens it is looked up with |
| Synonyms.TableListings | utils/synonyms.ts:1-41 | 'quantum computing' is listed nowhere, 'ai' only under the four keys that list it, 'cs' only under 'computer science' |
| Synonyms.ProgrammingCodingMutual | utils/synonyms.ts:3-5 | 'programming' lists 'coding' and 'coding' lists 'programming' |
| Synonyms.ProbabilityNotAKey | utils/synonyms.ts:18 | 'mathematics' lists 'probability'; 'probability' is no key and has no direct list, but reverse expansion reaches 'mathematics' |
| Synonyms.StatsNotAKey | utils/synonyms.ts:21 | 'statistics' lists 'stats'; 'stats' is no key, but reverse expansion reaches 'statistics' |
| Synonyms.AiListedUnder | utils/synonyms.ts:4-40 | an entry lists 'ai' exactly when its key is 'computer science', 'machine learning', 'data science' or 'robotics' |
| Synonyms.AiReverseExpansion | views/Match.tsx:29-34 | reverse expansion of 'ai' is the union of those four keys and their lists |
| Synonyms.QuantumComputingExpandsToItself | utils/synonyms.ts:1-41 | 'quantum computing' expands to itself only |
| Synonyms.ExpansionIsOneHop | views/Match.tsx:22-35 | 'cs' reaches 'ai' and 'ai' reaches 'artificial intelligence', but 'cs' does not reach 'artificial intelligence' |
| Scoring.InterestsMatchIff | views/Match.tsx:37-43 | study passes exactly when some viewer token contributes a term that includes, or is included in, some candidate token |
| Scoring.EmptyTokenPasses | views/Match.tsx:37-42 | an empty token on either side makes study pass |
| Scoring.EmptyInterestPasses | views/Match.tsx:18-42 | an empty viewer field passes study against every candidate |
| Scoring.TrailingCommaPasses | views/Match.tsx:18-42 | a viewer field ending in a comma passes study against every candidate |
| Scoring.ListedSynonymPasses | views/Match.tsx:22-42 | a candidate token listed under a viewer token makes study pass |
| Scoring.ProgrammingMatchesCoding | views/Match.tsx:18-42 | viewer "programming, ai" passes study against candidate "coding" |
| Scoring.CapitalisedProgrammingMatchesCoding | views/Match.tsx:18-42 | viewer "Programming, AI" passes study against candidate "coding", as the lower-case field does |
| Scoring.BlankFieldMatchesAll | views/Match.tsx:46-52 | a whitespace-only field is not skipped and matches every non-empty field |
| Scoring.FieldMatchWithoutBadge | views/Match.tsx:46-52 | " w" and "w " pass the trimmed school/major criterion while the untrimmed badge shows a cross |
| Scoring.FieldBadgeImpliesMatch | views/Match.tsx:165 | a ✓ on the Dream, School or Major badge implies the criterion passes |
| Scoring.TimeNotTrimmed | views/Match.tsx:64-72 | the timeframe criterion does not trim: " w" and "w " fail it |
| Scoring.FlexibleMatchesAll | views/Match.tsx:64-72 | "flexible", in any case and on either side, matches every non-empty timeframe |
| Scoring.MatchWeight | views/Match.tsx:10-85 | the weight lies in [0, 7]; it is at least 3 when study interest passes and at most 4 when it fails; it is 7 iff all five criteria pass and 0 iff none does |
| Scoring.Weight | views/Match.tsx:83-84 | the weight lies in [0, 7]; it is at least 3 when study passes and at most 4 when it fails; it is 7 or 0 exactly when all criteria pass or all fail |
| Scoring.PercentExact | views/Match.tsx:84 | the percentage `100w/7` lies in [0, 100] and compares with any threshold as the integer test does |
| Scoring.ThresholdIff | views/Match.tsx:94 | a score of at least 50 means study plus one more criterion, or all four others without study |
| Scoring.ThresholdWeights | views/Match.tsx:94 | score ≥ 50 iff weight ≥ 4; score ≥ 30 iff weight ≥ 3 |
| Scoring.StudyBadgeIff | views/Match.tsx:161 | the Study badge is ✓ iff the weight is at least 3, so whenever study passes and for every deck card |
| Scoring.StudyBadgeWithoutStudy | views/Match.tsx:161 | three other criteria light the Study badge although study fails |
| Deck.BuildDeck | views/Match.tsx:87-96 | for any weighing, the deck is sorted by weight, highest first, and is no longer than the pool |
| Deck.MatchedProfiles | views/Match.tsx:87-96 | the deck is ordered by score, highest first, and is no longer than the pool |
| Deck.DeckMembers | views/Match.tsx:88-94 | a candidate is in the deck iff its profile is in the pool, is not a friend, carries its own weight and scores at least 50 |
| Deck.DeckKeepsPoolOrderOnTies | views/Match.tsx:95 | the deck is a reordering of the passing candidates in which equal scores keep pool order |
| Deck.DeckShowsStudyBadge | views/Match.tsx:161 | every deck card shows the Study badge |
| Deck.Current | views/Match.tsx:114-126 | no card is shown exactly when the cursor is at or past the end |
| Deck.Swipe | views/Match.tsx:100-111 | either swipe moves the cursor by exactly one; a left swipe changes nothing else; a right swipe adds exactly the shown name and leaves the rest of the user unchanged; when the name is new the stored record with the user's email is replaced by the updated user, otherwise nothing changes; the stored emails never change |
| Deck.SwipeAll | views/Match.tsx:100-126 | after k swipes the cursor is at k, every card swiped right is a friend, old friends stay, and a full pass ends caught up |
| Deck.RebuiltDeckDropsFriend | views/Match.tsx:87-96 | adding a name to the friend list rebuilds the deck as the old deck without that profile, everything else in place |
| Deck.MatchedAfterAddFriend | views/Match.tsx:96 | the deck recomputed for the user after addFriend is the old deck without the new friend |
| Deck.DeckAvoidsFriends | views/Match.tsx:89 | no card of the deck names a friend it was built for |
| Deck.MatchedUsesOldWeigher | views/Match.tsx:87-96 | since the score ignores the friend list, the deck for an updated friend list is the old user's weighing applied to it |
| Deck.DeckSkipsNext | views/Match.tsx:100-111 | as written, for any weighing: a right swipe on card i, whose name is unique, rebuilds the deck without it while the cursor moves to i + 1, so the card at i + 1 of the old deck is never shown |
| Deck.RightSwipeSkipsNext | views/Match.tsx:100-111 | as written, on the deck of the real score (DeckSkipsNext applied to it): after a right swipe the rebuilt deck loses the card, the cursor still advances, and the card that was next is never shown |
| Deck.SwipeCorrected | views/Match.tsx:100-111 | corrected swipe: a right swipe keeps the cursor, a left swipe advances it |
| Deck.DeckCorrectedShowsNext | views/Match.tsx:100-111 | with the corrected swipe, for any weighing, the card shown after either swipe is the one that followed the swiped card |
| Deck.CorrectedShowsNext | views/Match.tsx:100-111 | with the correction, the card shown after either swipe is the one that followed the swiped card |
| Session.AddFriendTo | context/AppContext.tsx:173-178 | the list gains the name at the end iff it was absent, keeps its prefix, and stays duplicate-free |
| Session.AddFriendIdempotent | context/AppContext.tsx:173-178 | adding a friend twice is adding once |
| Session.RemoveFriendFrom | context/AppContext.tsx:180-185 | exactly the occurrences of the name go: the name's count drops to zero, every other name keeps its count, and an absent name changes nothing |
| Session.RemoveFriendFromSplits | context/AppContext.tsx:180-185 | removal works element by element: a split list is cleaned piecewise and one element survives iff it is not the name, which pins the result and its order |
| Session.RemoveKeepsNoDup | context/AppContext.tsx:180-185 | removing keeps a duplicate-free list duplicate-free |
| Session.RemoveUndoesAdd | context/AppContext.tsx:173-185 | removing a name just added restores the list |
| Session.AddAfterRemoveMovesToEnd | context/AppContext.tsx:173-185 | re-adding a removed name puts it at the end |
| Session.AddFriend | context/AppContext.tsx:173-178 | with no user, or with the name already a friend, nothing changes; otherwise only the friend list changes, the stored record with the user's email is replaced by the updated user, and stored emails stay the same |
| Session.RemoveFriend | context/AppContext.tsx:180-185 | with no user, or with the name not a friend, nothing changes; otherwise only the friend list changes |
| Session.AddThenRemoveFriend | context/AppContext.tsx:173-185 | removeFriend undoes addFriend on the signed-in user |
| Session.ReplaceByEmail | context/AppContext.tsx:59-60 | each stored record with the updated email becomes the update; every other record and every position stays |
| Session.ReplaceKeepsEmails | context/AppContext.tsx:59-60 | writing a user back never changes the registered emails |
| Session.ReplaceIdempotent | context/AppContext.tsx:59-60 | writing the same record twice is writing it once |
| Session.UpdateUser | context/AppContext.tsx:56-62 | the signed-in user becomes the update and the stored emails are unchanged |
| Session.UpdateKeepsEmailsUnique | context/AppContext.tsx:56-62 | updating keeps stored emails unique |
| Session.FindIndex | context/AppContext.tsx:106-107 | the result is the first position satisfying the test, or none when no position does |
| Session.Signup | context/AppContext.tsx:149-166 | refused, with nothing changed, iff the email is registered; otherwise the new user, stamped with the join date, is appended and signed in |
| Session.SignupKeepsEmailsUnique | context/AppContext.tsx:149-166 | sign-up keeps the stored emails unique |
| Session.SignupTwiceRefused | context/AppContext.tsx:149-153 | a second sign-up with the same email is refused |
| Session.LikeProfile | context/AppContext.tsx:64-68 | a profile is appended only when no liked profile has its name, and afterwards one does |
| Session.LikeKeepsNamesUnique | context/AppContext.tsx:64-68 | liked profile names stay unique |
| Session.LikeIdempotent | context/AppContext.tsx:64-68 | liking twice is liking once |
| Session.CreateGroupChat | context/AppContext.tsx:70-78 | one chat is put in front, with id `now`, the members followed by 'You' and no messages; the old chats follow in order |
| Session.UpdateGroupChat | context/AppContext.tsx:80-82 | chats with the id get the messages; nothing else changes and nothing moves |
| Session.RenameGroupChat | context/AppContext.tsx:84-86 | chats with the id get the name; nothing else changes and nothing moves |
| Session.LeaveGroupChat | context/AppContext.tsx:88-90 | exactly the chats with the id go: their count drops to zero, every other chat keeps its count, and no chat with the id remains |
| Session.LeaveGroupChatSplits | context/AppContext.tsx:88-90 | leaving works chat by chat: a split list is cleaned piecewise and one chat survives iff its id differs, which pins the result and its order |
| Session.UnknownIdIsNoOp | context/AppContext.tsx:80-90 | update, rename and leave with an unknown id change nothing |
| Session.LeaveUndoesCreate | context/AppContext.tsx:70-90 | leaving a chat just created with a fresh id restores the list |
| Session.UpdateNeverReorders | context/AppContext.tsx:80-82 | a group message never moves a chat |
| Session.StartPrivateChat | context/AppContext.tsx:92-100 | an empty chat is put in front only when none exists for the friend; afterwards one exists |
| Session.StartIdempotent | context/AppContext.tsx:92-100 | starting a chat twice starts it once, whatever the clock says |
| Session.Sent | context/AppContext.tsx:109-117 | the chat gains exactly one message from 'You' at the end, and its activity becomes `now` |
| Session.SendPrivateMessage | context/AppContext.tsx:104-123 | an unknown friend leaves the list unchanged; otherwise the result is sorted by activity, most recent first |
| Session.SendPermutes | context/AppContext.tsx:104-123 | the result is a reordering of the old list with the friend's first chat replaced by its updated copy |
| Session.SendMovesChatToFront | context/AppContext.tsx:104-123 | with a sorted list and a clock past every other activity, the chat moves to the front and the others keep their order |
| Session.SendAtTieStaysBehind | context/AppContext.tsx:117-121 | with two chats active at 5 and a send to the second at clock 5, the sent-to chat stays second: the stable sort keeps ties in place |
| Messages.SortedChats | views/Messages.tsx:13 | the copy is sorted by activity, most recent first, and holds the same chats |
| Messages.SortedChatsIsIdentityIff | views/Messages.tsx:13 | the view's order equals the context's iff the context's list is already in recency order |
| Messages.SortedChatsAfterSend | views/Messages.tsx:13 | after a send the view shows the context's list as it is |
| Messages.SortedChatsStable | views/Messages.tsx:13 | chats with equal activity keep their relative order |
| Messages.InitialsOfWords | views/Messages.tsx:28 | for non-empty words joined by single spaces, the initials are the words' first letters in order |
| Messages.Initials | views/Messages.tsx:28 | the initials have at most one character per space-separated piece of the name |
| Messages.InitialsAtSpace | views/Messages.tsx:28 | the initials of two names joined by a space are the initials of the first followed by those of the second |
| Messages.Preview | views/Messages.tsx:62 | an empty chat shows 'No messages'; otherwise the last message's text when it has one, and nothing for a drawing |
| Messages.PreviewOfAppended | views/Messages.tsx:62 | after a message is appended the preview is its text, or nothing for a drawing, whatever came before |
| Messages.PreviewShowsSent | views/Messages.tsx:62 | a chat just written to previews the sent text |
| Messages.HandleSend | views/Messages.tsx:21-26 | nothing happens without a selected friend or with blank input; otherwise the trimmed text is sent and the input cleared |
| Messages.HandleSendDelivers | views/Messages.tsx:21-26 | the friend's chat ends up in front with one new message whose text is trimmed and non-blank |
| Messages.FriendProfiles | views/Messages.tsx:168 | the picker offers exactly the profiles named in the friend list; the group view's member picker (views/GroupChats.tsx:224) is the same filter |
| Messages.NewChatPicker | views/Messages.tsx:168 | nothing without a user; otherwise exactly the profiles whose name is a friend |
| Messages.FriendProfilesKeepsOrder | views/Messages.tsx:168 | the picker keeps profile order |
| Messages.AddedFriendIsOffered | views/Messages.tsx:168 | a profile just added as a friend is offered |
| GroupChats.ActiveChat | views/GroupChats.tsx:24 | none exactly when no chat is selected or no chat has the selected id; otherwise a chat with that id |
| GroupChats.SendGroupMessage | views/GroupChats.tsx:32-45 | nothing happens without an open chat or with blank input; otherwise the open chat's messages gain the trimmed text message and the input is cleared |
| GroupChats.SendGroupMessageDelivers | views/GroupChats.tsx:32-45 | the open chat gains exactly one message, from 'You', with the trimmed, non-blank text and no image |
| GroupChats.AppendToActive | views/GroupChats.tsx:43 | every chat with the open chat's id carries the open chat's messages followed by the new one; every other chat is unchanged and nothing moves |
| GroupChats.AppendToActiveAppends | views/GroupChats.tsx:43 | the open chat keeps its place and gains exactly the new message; every other chat is unchanged |
| GroupChats.SendDrawing | views/GroupChats.tsx:47-57 | without an open chat nothing happens; otherwise one image message from 'You' is appended |
| GroupChats.CreateGroup | views/GroupChats.tsx:59-65 | nothing happens with an empty name or no members; otherwise a chat with id `now`, the form's name, the selected members followed by 'You' and no messages is put in front, and the form is reset |
| GroupChats.Rename | views/GroupChats.tsx:67-72 | nothing happens without an open chat or with empty text; otherwise the chat is renamed to the untrimmed text |
| GroupChats.RenameAcceptsBlank | views/GroupChats.tsx:67-72 | a name of one space, which trims to nothing, is accepted |
| GroupChats.ToggleMember | views/GroupChats.tsx:229-231 | checking appends the name; unchecking removes every occurrence of it and keeps the count of every other name |
| GroupChats.UncheckSplits | views/GroupChats.tsx:229-231 | unchecking cleans a split selection piecewise, so the remaining names keep their order |
| GroupChats.ToggleTwiceRestores | views/GroupChats.tsx:229-231 | checking then unchecking a clear box restores the selection |
| Search.HitIgnoresFieldCase | components/Header.tsx:15-21 | a profile is hit by exactly the same queries after its five searched fields are lower-cased |
| Search.SearchResults | components/Header.tsx:12-26 | no results when the trimmed query is shorter than two characters; otherwise a profile is a result iff the untrimmed lower-cased query occurs in one of its five searched fields |
| Search.SearchKeepsOrder | components/Header.tsx:15-22 | results keep profile order: searching a concatenation is concatenating the searches |
| Search.SearchIgnoresAgeAndTimeframe | components/Header.tsx:15-21 | changing age or timeframe never changes whether a profile is found |
| Search.SpacedQueryMissesUnspaced | components/Header.tsx:14 | a query containing a space never finds a profile whose searched fields have no space |
| SignupForm.ParseIntToString | views/Signup.tsx:27 | parseInt reads back any integer written in decimal, whatever non-digit text follows |
| SignupForm.ParseSkipsSpace | views/Signup.tsx:27 | parseInt skips leading whitespace: one more space in front reads the same |
| SignupForm.ParseFromStart | views/Signup.tsx:27 | text that starts with no whitespace is read from its first character |
| SignupForm.ParseWithoutDigits | views/Signup.tsx:27 | text starting with anything but whitespace, a sign or a digit parses as NaN |
| SignupForm.AgeInput | views/Signup.tsx:27 | the age is the parsed number, or 0 when parsing gives NaN |
| SignupForm.NonNumericAgeIsZero | views/Signup.tsx:27 | non-numeric age input is stored as 0 |
| SignupForm.HandleChange | views/Signup.tsx:23-29 | the age field stores the coerced number; every other field stores the typed text verbatim and keeps the age |
| SignupForm.HandleChangeOnlyTouchesField | views/Signup.tsx:23-29 | editing one field leaves every other text field as it was |
| SignupForm.ErrorText | views/Signup.tsx:38-49 | exactly the failed outcomes carry an error message |
| SignupForm.HandleSubmit | views/Signup.tsx:31-51 | the fill-in check comes first and the age check second, and neither calls sign-up; then the email rule decides; only success changes the account |
| SignupForm.FalsyAgePasses | views/Signup.tsx:42-45 | an age of 0, or one never entered, passes the age check |
| SignupForm.SubmitKeepsEmailsUnique | views/Signup.tsx:47-50 | submitting keeps stored emails unique, and a success registers the form's email |
| SignupForm.BlankFormRejected | views/Signup.tsx:8-40 | the untouched form fails the fill-in check |
| Strings.Lower | views/Match.tsx:18-19 | lower-casing keeps the length and maps each character to its lower-case form, leaving no upper-case letter |
| Strings.Trim | views/Match.tsx:18-19 | the trimmed string is a slice of the input with no whitespace at either end, and no longer than the input |
| Strings.Split | views/Match.tsx:18 | split gives at least one piece, each free of the separator; joining the pieces gives the input back; one piece iff the separator is absent |
| Strings.SplitAtSeparator | views/Match.tsx:18 | splitting at a separator between two strings splits each side on its own |
| Strings.ContainsIff | views/Match.tsx:39 | includes holds iff some slice of the text equals the needle |
| Seqs.FilterMembers | views/Match.tsx:89 | filter keeps exactly the elements satisfying the test |
| Seqs.FilterCount | views/Match.tsx:89 | filter keeps every copy of a qualifying element and no copy of any other |
| Seqs.FilterConcat | views/Match.tsx:89 | filtering a concatenation concatenates the filtered parts, so filter keeps order |
| Seqs.SortDesc | views/Match.tsx:95 | the sort result is ordered by key, highest first, and is a permutation of the input |
| Seqs.SortDescStable | context/AppContext.tsx:121 | the comparator sort is stable: elements with equal keys keep their relative order |
| Seqs.SortFilterCommute | views/Match.tsx:94-95 | sorting after filtering equals filtering after sorting |

## Left out

- The drawing canvas (components/DrawingCanvas.tsx) is left out because it handles pixels, device ratios and mouse and touch events. A drawing is an opaque image string in a message.
- The AI assistant (utils/openai.ts, `sendAIMessage`, views/AIAssistant.tsx) is left out because it makes network calls to a foreign SDK.
- localStorage and JSON persistence, login and logout are left out. The stored user list is an explicit sequence in `Session.Account`.
- `Date.now()` and `new Date().toISOString()` are left out. They are parameters (`now`, `joined`).
- `sendPrivateMessage` reads the clock twice, once for the message timestamp and once for `lastActivity`. Both use the same `now`.
- The 300 ms `setTimeout` in `handleSwipe` is left out. The cursor advances immediately.
- `Math.round` of the displayed percentage is left out, as is all floating point. Percentages are decided on the integer weight, and `PercentExact` ties that to the real-valued `100w/7`.
- Presentation-only views and all JSX are left out: views/Profile.tsx, views/Home.tsx, views/Friends.tsx, views/Login.tsx and App.tsx. So are Messages' `activeChat` lookup and its avatar choice, which only affect display.
- constants.ts fixture data is left out.
- Unicode is left out. `toLowerCase` is modelled on ASCII letters only. `trim` and parseInt's leading-whitespace skip use a fixed ASCII whitespace set.
- parseInt's hexadecimal reading of a "0x" prefix is left out, as are non-ASCII digits. `SignupForm.ParseInt` reads base 10 only.
- Synonyms.TableKeysLower: only the keys are proved lower-case. The case of the roughly 190 listed terms is not proved, because per-term proofs over the literal table are too costly for the verifier.
- Object-prototype names used as interest tokens (for example "constructor") are left out. In JavaScript, `INTEREST_SYNONYMS[token]` finds the inherited member for such a token, and the source then calls `forEach` on it. The model's table has only its declared keys.
- `signup`'s `friends: userData.friends || []` is not modelled separately. In the model `friends` is always a sequence, and the form starts it empty.
- Session.SendMovesChatToFront: this requires the clock to be strictly newer than every other chat's activity. The exact condition is weaker: `now` newer than every chat ahead and no older than every chat behind. The ties that the simpler condition excludes are not proved in general. `Session.SendAtTieStaysBehind` shows one tie in which the chat stays behind.
- Deck.SwipeAll: swipes are modelled on a fixed deck. The rebuild of the deck after a right swipe is stated separately, by `Deck.RightSwipeSkipsNext`.

## Findings

| source | as written | input that shows it | evidently intended | confidence | as-written member | corrected member |
|---|---|---|---|---|---|---|
| views/Match.tsx:100-111 | a right swipe calls `addFriend`, which replaces `user` and so rebuilds the deck memoised on it (line 96) without the accepted card, yet the cursor still advances by one | deck [A, B, C] with the cursor on A, swipe right: the rebuilt deck is [B, C] and the cursor moves to 1, showing C, so B is never shown | the card after the swiped one is shown next | not executed | Deck.DeckSkipsNext | Deck.DeckCorrectedShowsNext |
