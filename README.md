# Photo contest workflow, modelled in Dafny

This project models the core of a Flask photo-contest site:

- participants upload photos, which start out pending;
- an admin approves, rejects or reverts them;
- voters (and participants and admins, who may vote too) vote once per approved photo that is not their own;
- signed-in users comment;
- owners edit their pending photos;
- an upload, a vote, a comment and each moderation decision leave a notification for the photo's owner; editing a photo and registering leave none.

The ranked pages show the approved photos with the most votes.

Modules:

- `Models` holds the records, the role predicates, the column defaults, the one-vote-per-pair constraint and the cascade from a photo to its votes and comments.
- `Auth` holds the route guards (`login_required`, `admin_required`, `voter_required`, `participant_required`) as one check that either runs the handler as the signed-in user or redirects.
- `Text` holds Python's `str.strip()`, which `add_comment` applies to the comment, and `str.lower()`, which `allowed_file` applies to the extension.
- `Utils` holds `allowed_file`.
- `Rules` gives each route's checks, in the route's own order, as a refusal function naming the first check that fails. It also holds the read-only projections (photo detail, `can_vote`, the unread-notification list) and the lemmas relating them.
- `Ranking` holds the home, leaderboard and previous-winners queries: filter approved, order by `votes_count` descending, limit.
- `Workflow.Contest` is one object holding the five tables (users, photos, votes, comments, notifications) and the next autoincrement ids. Each route is a method:
  - A refused request returns the refusal and leaves the object unchanged.
  - An accepted one makes exactly the route's changes.
  - Every method keeps `Valid()`. This covers:
    - unique emails;
    - photos owned by stored users;
    - the vote ledger: unique (user, photo) rows, each by a voter who does not own the photo, and every photo's `votes_count` equal to its number of rows;
    - comments holding stripped, non-empty, active text on stored photos;
    - notification ids counting up in insertion order.
- `PasswordStrength` holds the client-side `checkPasswordStrength` meter.

Inputs stand in for the request and the framework:

- The session is a parameter: `Anonymous`, or `SignedIn(id)`. It is authenticated only when the id names a stored user.
- Form fields are parameters, with `Option` for a field that may be missing.
- The uploaded file is its file name, or `None` when no file was sent.
- Notification timestamps are replaced by the notification id, which grows with every insert. "Newest first" is therefore descending id.

Some checks of the code behave in ways that are easy to misread; the model keeps them as written:

- The vote route checks for an existing vote before it checks for a vote on one's own photo (app.py:332-341). Under the ledger invariant no stored vote is on its voter's own photo, so the two refusals never both apply. `Rules.DuplicateAndSelfVoteExclusive` proves this.
- `add_comment` looks the photo up (404) before it checks the content for blankness (app.py:379-386).
- The admin exemption in `update_photo` and `edit_photo` can never be reached. `participant_required` admits only participants, and an admin is not one. `Auth.ParticipantGuardExcludesAdmins` and `Rules.EditOnlyOwnPending` prove this.

## Model

| member | source | states |
|---|---|---|
| `Models.RoleHierarchy` | models.py:31-38 | is_admin holds iff the role is "admin", is_participant iff "participant", is_voter iff one of the three; an admin and a participant are both voters and never each other |
| `Models.NewPhoto` | models.py:49-50 | a new photo row is pending with a vote count of 0 and keeps the given owner, title and description |
| `Models.NewComment` | models.py:76 | a new comment row is active |
| `Models.NewNotification` | models.py:89 | a new notification row is unread |
| `Models.VotesForAppend` | app.py:343-348 | inserting one vote row raises the number of rows of its own photo by exactly one and leaves every other photo's number unchanged |
| `Models.VotesForAbsent` | models.py:50 | a photo that no vote row names has zero vote rows, matching the default count of a new photo |
| `Models.VotesWithout` | models.py:57 | deleting a photo removes exactly its vote rows, keeps the rest unique, and leaves every other photo's row count unchanged |
| `Models.CommentsWithout` | models.py:58 | deleting a photo removes exactly its comments and keeps every other comment, as many times as it occurred |
| `Models.CommentsWithoutAppend` | models.py:58 | the cascade filters each part of the comment table separately, so the surviving comments keep their order |
| `Auth.Check` | auth.py:6-31 | each guard runs the handler iff the session is authenticated and the role passes the guard's test; otherwise it redirects |
| `Auth.GuardsNest` | auth.py:6-31 | whatever admin_required or participant_required admits, voter_required admits, and login_required admits whatever voter_required does |
| `Auth.ParticipantGuardExcludesAdmins` | auth.py:24-31 | participant_required never admits an admin |
| `Text.LeadingSpaces` | app.py:385 | the leading whitespace run: all whitespace, followed by a non-space or the end |
| `Text.TrailingSpaces` | app.py:385 | the trailing whitespace run: all whitespace, preceded by a non-space or the start |
| `Text.Strip` | app.py:385-394 | strip() is empty iff the text is all whitespace; otherwise it is the slice between the leading and the trailing whitespace and starts and ends with a non-space |
| `Text.StripIdempotent` | app.py:394 | stripping stripped text changes nothing |
| `Text.LowerChar` | utils.py:8 | lower() maps each capital A-Z to its own lower-case letter and leaves every other character alone |
| `Text.Lower` | utils.py:8 | lower() keeps the length and lowers each character |
| `Text.LowerIdempotent` | utils.py:8 | lowering twice is lowering once |
| `Utils.LastDot` | utils.py:8 | rsplit('.', 1): absent iff there is no '.', otherwise the index of a '.' with no '.' after it |
| `Utils.AllowedFile` | utils.py:6-8 | an accepted name contains a '.', has at least four characters and does not end in '.' |
| `Utils.AllowedFileIff` | utils.py:6-8 | allowed_file holds iff the name has a '.' whose following text has no '.' and, lower-cased, is png, jpg, jpeg or gif |
| `Utils.NoDotRefused` | utils.py:7 | a name without a '.' is refused |
| `Utils.AllowedFileCaseInsensitive` | utils.py:8 | lower-casing the name never changes the verdict |
| `Utils.AcceptedExamples` | utils.py:6-8 | "A.JPG" and "holiday.photo.png" are accepted |
| `Utils.RefusedExamples` | utils.py:6-8 | "x.jpg.exe", "jpg" and "photo." are refused |
| `Rules.VoteRefusal` | app.py:319-341 | each outcome is an iff, in the route's order: the login redirect for an unauthenticated caller; then no vote permission for a non-voter; then not found for a missing photo; then not approved; then already voted; then own photo; accepted iff every check passes |
| `Rules.CanVoteIffVoteAccepted` | app.py:696-701 | the can_vote flag is true exactly when the vote route would accept the vote |
| `Rules.OwnerNeverVotes` | app.py:338-341 | a vote on one's own photo is always refused, whatever the status and role |
| `Rules.OnlyApprovedPhotosReceiveVotes` | app.py:328-331 | a vote on a pending or rejected photo is always refused |
| `Rules.DuplicateAndSelfVoteExclusive` | app.py:333-341 | under the ledger invariant a stored vote and self-ownership never hold together, so the duplicate check coming first never decides the refusal |
| `Rules.SecondVoteRefused` | models.py:68-69 | after an accepted vote, the same user's next vote for that photo is refused as a duplicate |
| `Rules.AcceptedVoteKeepsLedger` | app.py:343-348 | appending the vote row and raising the photo's count by one keeps the ledger invariant, so votes_count equals the number of vote rows |
| `Rules.CommentRefusal` | app.py:379-391 | each outcome is an iff, in the route's order: the login redirect; not found for a missing photo; empty for missing or all-whitespace content; forbidden for a photo that is not approved when the caller is neither admin nor owner; accepted otherwise |
| `Rules.CommentContentRules` | app.py:385-394 | missing or whitespace-only content is refused as empty; accepted content stores non-empty stripped text |
| `Rules.DetailVisibility` | app.py:123-137 | a photo's detail shows the stored photo iff it exists and is approved or the caller is an authenticated admin or its owner |
| `Rules.PhotoDetail` | app.py:123-137 | a missing photo is refused as not found and is the only such refusal; every other refusal is not visible; a shown photo is the stored one |
| `Rules.CommentGateMatchesDetail` | app.py:388-391 | for non-blank text, a signed-in user may comment on exactly the photos whose detail page they may see |
| `Rules.EditRefusal` | app.py:505-540 | each outcome is an iff, in the route's order: the redirect iff the caller is not an authenticated participant; not found for a missing photo; unauthorized for someone else's photo, whatever its status; not pending for the caller's own photo that is not pending; accepted otherwise |
| `Rules.EditOnlyOwnPending` | app.py:505-537 | edit_photo and update_photo proceed iff the caller is a participant who owns the photo and the photo is pending |
| `Rules.EditedTitle` | app.py:542-546 | an empty or missing title keeps the old title; any other replaces it |
| `Rules.ModerationRefusal` | app.py:441-476 | the redirect iff the caller is not an authenticated admin; not found iff an admin names a missing photo; approve, reject and revert proceed iff the caller is an admin and the photo exists, whatever its status |
| `Rules.PhotoMessage` | app.py:277 | every notification text is 'Your photo "', the title, a closing quote and a space, then the event |
| `Rules.TargetStatus` | app.py:446-474 | approve sets approved, reject sets rejected and revert sets pending, each action its own status |
| `Rules.ModerationEvent` | app.py:446-474 | every moderation notice's event starts with "has been ", and only an approval ends with '!', the others with '.' |
| `Rules.ModerationNoticesDistinct` | app.py:446-474 | the approve, reject and revert notices for the same photo differ, so the owner can tell which action was taken |
| `Rules.ModerationReachesEveryStatus` | app.py:441-478 | the three moderation actions between them reach every status |
| `Rules.UploadRefusal` | app.py:245-262 | each outcome is an iff, in the route's order: the redirect iff the caller is not an authenticated participant; missing file iff no file was sent; invalid type iff the name is one allowed_file refuses; accepted otherwise |
| `Rules.RegisterRefusal` | app.py:159-184 | signed in already iff the caller is authenticated; otherwise email taken iff a stored user has the email; accepted iff nobody is signed in and the email is new |
| `Rules.RegisteredRole` | app.py:166-169 | an "admin" request is stored as "participant", any other requested role is stored as requested, and the stored role is never admin |
| `Rules.FindNotification` | app.py:582 | the lookup finds a notification with the given id, or reports that none has it |
| `Rules.MarkReadRefusal` | app.py:579-585 | an unauthenticated caller is redirected and a missing id is refused as not found; with distinct ids, the request is accepted iff the caller owns the notification and refused as unauthorized iff another user owns it |
| `Rules.UnreadNewestFirst` | app.py:564-577 | get_notifications lists exactly the caller's unread notifications, newest first when ids grow with insertion |
| `Rules.MarkAllRead` | app.py:658-663 | clear_notifications keeps every row's id, owner and message and marks read exactly the caller's rows |
| `Rules.ClearLeavesNothingUnread` | app.py:658-663 | after clearing, the caller has no unread notification |
| `Rules.ClearSparesOthers` | app.py:658-663 | clearing leaves every other user's unread list as it was |
| `Ranking.ApprovedIds` | app.py:85 | the filter keeps exactly the approved photos, each once |
| `Ranking.InsertByVotes` | app.py:99 | insertion into the ordered list adds exactly the one id |
| `Ranking.InsertKeepsOrder` | app.py:99 | inserting into a list ordered by votes, highest first, keeps it ordered and free of repeats |
| `Ranking.SortByVotes` | app.py:99 | order_by(votes_count.desc()) returns a permutation of its input, ordered by votes, highest first |
| `Ranking.Top` | app.py:96-112 | the ranked queries return at most limit distinct approved photos, ordered by votes, highest first |
| `Ranking.TopIsRanking` | app.py:83-112 | no approved photo is left out of a ranked query unless the list is full and every listed photo has at least as many votes |
| `Ranking.RankingExample` | app.py:96-104 | with counts 3, 5, 1, 3 and a pending photo with 9, the leaderboard is the 5, both 3s and then the 1; the pending photo is absent |
| `Workflow.VoteKeepsInvariants` | app.py:343-348 | the accepted vote's new row and count keep the photo, ledger and comment invariants, and the photo's new count equals its number of vote rows, one more than before |
| `Workflow.Contest.constructor` | models.py:8-93 | the database starts with all five tables empty and satisfies every invariant |
| `Workflow.Contest.Notify` | utils.py:43-47 | create_notification appends exactly one new unread notification for the user with the message, with no de-duplication |
| `Workflow.Contest.CastVote` | app.py:303-369 | refused iff the vote rules refuse, with that refusal and no change; on success exactly one vote row is added, that photo's count rises by one and equals its number of rows, no other photo changes, the owner gets the new-vote notification, and the new count is returned |
| `Workflow.Contest.RecordVote` | app.py:343-356 | the accepted branch of the vote route: the vote row, the count rise and the owner's notification, keeping the ledger invariant |
| `Workflow.Contest.VoteStatus` | app.py:678-705 | an anonymous caller is redirected and a missing photo answered not found, and no other refusal occurs; otherwise the reported can_vote is true iff the vote route would accept |
| `Workflow.Contest.AddComment` | app.py:371-421 | refused iff the comment rules refuse, with no change; on success exactly one active comment with the stripped text is appended and the owner gets the new-comment notification |
| `Workflow.Contest.Moderate` | app.py:441-478 | for an admin and an existing photo, sets the status to approved, rejected or pending from any status, changes no other photo field, and adds exactly one notification, addressed to the owner, with the action's message |
| `Workflow.Contest.UploadPhoto` | app.py:245-290 | refused without a change when the guard fails, the file is missing or its name is refused; otherwise adds one new pending photo with no votes, owned by the caller, and the submitted notification |
| `Workflow.Contest.EditPhotoForm` | app.py:505-526 | a refused request gets exactly the refusal of update_photo's checks; otherwise the form shows the current title and description, only to the owner of a pending photo |
| `Workflow.Contest.UpdatePhoto` | app.py:528-556 | only the owner's pending photo changes: a non-empty title replaces the old one, the description is replaced (empty when missing), and nothing else changes |
| `Workflow.Contest.DeletePhoto` | models.py:57-58 | deleting a photo removes its votes and comments with it and keeps every invariant |
| `Workflow.Contest.Register` | app.py:159-184 | refused when signed in or the email is taken; otherwise adds one user with a fresh id, the given email and username and the requested role, with "admin" stored as "participant" |
| `Workflow.Contest.UnreadNotifications` | app.py:564-577 | an anonymous caller is redirected, and is the only one refused; otherwise lists exactly the caller's unread notifications, newest first |
| `Workflow.Contest.MarkNotificationRead` | app.py:579-588 | accepted iff the caller owns a notification with the id, refused as unauthorized iff another user owns it, refused with no change otherwise; an accepted request marks exactly that notification read, and marking it again changes nothing |
| `Workflow.Contest.ClearNotifications` | app.py:658-663 | an anonymous caller is redirected with no change; otherwise marks read exactly the caller's notifications, leaves the caller nothing unread and every other user's unread list unchanged |
| `Workflow.Contest.Detail` | app.py:123-137 | photo_detail shows the photo iff it exists and is approved or the caller is an authenticated admin or its owner, and what it shows is the stored photo; a missing photo is answered not found, and any other refusal is the one the detail checks give (not visible) |
| `Workflow.Contest.Home` | app.py:83-86 | at most eight approved photos, most votes first, none better left out |
| `Workflow.Contest.Leaderboard` | app.py:96-104 | at most twenty approved photos, most votes first, none better left out |
| `Workflow.Contest.PreviousWinners` | app.py:106-112 | at most three approved photos, most votes first, none better left out |
| `Workflow.ModerationCycle` | app.py:441-478 | an admin can take a photo through approve, reject, revert and approve; every step succeeds and adds one notification, and the votes and the count do not change |
| `PasswordStrength.Rating` | static/js/auth.js:134-140 | the label and the colour are taken at the same index, so the result is always one of the six label and colour pairs |
| `PasswordStrength.CheckPasswordStrength` | static/js/auth.js:121-141 | the running counter ends at the number of criteria met, and the result is the rating of that score |
| `PasswordStrength.Score` | static/js/auth.js:122-132 | the score is at most 6, and it is 0 exactly for the empty password, since every character passes one of the four class tests |
| `PasswordStrength.LengthPoints` | static/js/auth.js:125-126 | the score is the class points plus 2 for twelve or more characters, plus 1 for eight to eleven, plus 0 for fewer; a password under eight characters never reads "Very Strong" |
| `PasswordStrength.RatingSaturates` | static/js/auth.js:134-138 | scores 5 and 6 both read "Very Strong"; a lower score picks its own index |
| `PasswordStrength.EmptyPasswordIsVeryWeak` | static/js/auth.js:121-140 | the empty password scores 0 and reads "Very Weak" |
| `PasswordStrength.StrongPassword` | static/js/auth.js:121-140 | twelve or more characters with a lower-case letter, an upper-case letter and a digit read "Very Strong" |

## Left out

- Flask routing, templates, flash messages, redirects, JSON response shapes, login sessions and CSRF are framework plumbing. A refusal is a `Failure` value, and the session is a parameter.
- Password hashing and checking are left out: they are a werkzeug library call.
- Storing the upload on disk, the timestamp and uuid file name, `secure_filename` and the PIL thumbnail step are left out (disk I/O, the clock, randomness and image resampling). A photo record has no file-name field. `save_photo` is modelled only through its refusal: a name `allowed_file` rejects stores nothing.
- The profile picture upload, `update_profile`, the profile page's counts, the admin dashboard listing, the vote page, the gallery's pagination and the debug permission endpoint are left out. They are outside the modelled workflow.
- Startup directory creation, default-user seeding and the configuration beyond the allowed extensions are environment setup and are left out.
- Form validation beyond what the routes check is left out. The role choice list of the registration form is not enforced: any requested role string is accepted, and only "admin" is rewritten. The email uniqueness validator is modelled as the `EmailTaken` refusal.
- Concurrent requests are not modelled. The unique vote constraint is a ledger invariant kept by each accepted vote, not a database check under interleavings.
- The routes' exception handlers (rollback and a 500 answer) are left out, and so are the swallowed failures of `create_notification` inside `vote` and `add_comment`. The model's operations cannot fail midway.
- `vote` contains an in-body authentication test answered with a 401. The route's login guard already redirects every unauthenticated request, so that test is unreachable. The model has only the guard's redirect.
- `Workflow.Contest.CastVote` and `Workflow.Contest.AddComment`: in `vote` and `add_comment`, `get_or_404` sits inside the route's `try`, so its 404 is caught by the route's own `except Exception` and answered as a 500 JSON error. The model answers a missing photo with the `NotFound` refusal, as in every other route.
- Notification `created_at` is replaced by the autoincrement id. Both grow with every insert, so "newest first" is descending id.
- `Ranking.Top`: the database's order among photos with equal counts is not fixed. The model breaks ties by ascending id. Only `Ranking.RankingExample` depends on that choice; the contracts of `Ranking.Top` and `Ranking.TopIsRanking` state no tie order.
- `Text.LowerChar`: Python's `str.lower()` is modelled on ASCII letters only. No non-ASCII character lowers to one of the letters of png, jpg, jpeg or gif, so `allowed_file`'s verdict is unaffected.
- `PasswordStrength.CheckPasswordStrength`: JavaScript's `length` counts UTF-16 code units, and the model counts characters. A password containing characters outside the Basic Multilingual Plane can therefore earn a length point in the source but not in the model.
- The rest of static/js/auth.js, static/js/main.js and static/js/csrf.js (DOM updates, fetch calls, idle timers) is not part of this model.
