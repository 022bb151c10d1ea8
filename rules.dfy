/**
 * The decisions the route bodies of app.py take before they change
 * anything: each refusal function lists the route's checks in the order
 * the route makes them and names the first that fails. The read-only
 * projections (photo detail, the can_vote flag, the unread-notification
 * list) live here too, with the lemmas that relate them to each other.
 */
module Rules {

  import opened Wrappers
  import opened Models
  import opened Text
  import opened Utils
  import opened Auth

  /** The refusals the routes answer with, in place of their redirects and JSON errors. */
  datatype Failure =
    | Redirected        // a guard sent the request to the login page; the handler did not run
    | SignedInAlready   // register while signed in: redirect home
    | NotFound          // get_or_404
    | NoVotePermission  // 403: the role may not vote
    | NotApproved       // 400: only approved photos accept votes
    | AlreadyVoted      // 400: a vote row for (user, photo) exists
    | OwnPhoto          // 400: voting for one's own photo
    | EmptyComment      // 400: missing or whitespace-only comment
    | CommentForbidden  // 403: commenting on a photo that is not approved
    | NotVisible        // photo_detail: redirect to the gallery
    | Unauthorized      // 403: someone else's photo or notification
    | NotPending        // 400: only pending photos can be edited
    | MissingFile       // upload without a file
    | InvalidFileType   // save_photo refused the file name
    | EmailTaken        // registration with an email already stored

  datatype Result<T> = Ok(value: T) | Err(error: Failure)

  /** The text of every notification: 'Your photo "<title>" <what happened>'. */
  function PhotoMessage(title: string, event: string): (m: string)
    ensures |m| == |title| + |event| + 14
    ensures m[..12] == "Your photo \"" && m[12..12 + |title|] == title
    ensures m[12 + |title|..14 + |title|] == "\" "
    ensures m[|m| - |event|..] == event
  {
    "Your photo \"" + title + "\" " + event
  }

  const SUBMITTED: string := "has been submitted for review."
  const NEW_VOTE: string := "received a new vote!"
  const NEW_COMMENT: string := "has a new comment."

  // ----------------------------------------------------------------- votes

  /**
   * The vote ledger's invariant: the unique constraint, every row naming a
   * stored photo and a stored voter who does not own it, and every photo's
   * cached count equal to its number of rows.
   */
  ghost predicate LedgerInvariant(users: map<UserId, User>, photos: map<PhotoId, Photo>, votes: seq<Vote>) {
    && UniqueVotes(votes)
    && (forall v :: v in votes ==>
          v.photoId in photos && v.userId in users && IsVoter(users[v.userId].role)
          && v.userId != photos[v.photoId].owner)
    && (forall id :: id in photos ==> photos[id].votesCount == VotesFor(votes, id))
  }

  /** The vote route: voter role, photo exists, approved, no earlier vote, not one's own photo. */
  function VoteRefusal(users: map<UserId, User>, photos: map<PhotoId, Photo>, votes: seq<Vote>,
                       s: Session, photoId: PhotoId): (r: Option<Failure>)
    ensures r == Some(Redirected) <==> !IsAuthenticated(users, s)
    // each refusal, in the order the route checks
    ensures r == Some(NoVotePermission) <==> IsAuthenticated(users, s) && !IsVoter(users[s.userId].role)
    ensures r == Some(NotFound) <==>
              IsAuthenticated(users, s) && IsVoter(users[s.userId].role) && photoId !in photos
    ensures r == Some(NotApproved) <==>
              IsAuthenticated(users, s) && IsVoter(users[s.userId].role) && photoId in photos
              && photos[photoId].status != Approved
    ensures r == Some(AlreadyVoted) <==>
              IsAuthenticated(users, s) && IsVoter(users[s.userId].role) && photoId in photos
              && photos[photoId].status == Approved && Vote(s.userId, photoId) in votes
    ensures r == Some(OwnPhoto) <==>
              IsAuthenticated(users, s) && IsVoter(users[s.userId].role) && photoId in photos
              && photos[photoId].status == Approved && Vote(s.userId, photoId) !in votes
              && photos[photoId].owner == s.userId
    ensures r.None? <==>
              IsAuthenticated(users, s) && IsVoter(users[s.userId].role) && photoId in photos
              && photos[photoId].status == Approved && Vote(s.userId, photoId) !in votes
              && photos[photoId].owner != s.userId
  {
    match Check(LoginRequired, users, s)
    case Redirect => Some(Redirected)
    case Proceed(uid, role) =>
      if !IsVoter(role) then Some(NoVotePermission)
      else if photoId !in photos then Some(NotFound)
      else if photos[photoId].status != Approved then Some(NotApproved)
      else if Vote(uid, photoId) in votes then Some(AlreadyVoted)
      else if photos[photoId].owner == uid then Some(OwnPhoto)
      else None
  }

  /** The can_vote flag of the vote-status endpoint, a single conjunction. */
  predicate CanVote(role: string, uid: UserId, photoId: PhotoId, photo: Photo, votes: seq<Vote>) {
    IsVoter(role) && photo.status == Approved && photo.owner != uid && Vote(uid, photoId) !in votes
  }

  /** can_vote is true exactly when the vote route would accept the vote. */
  lemma CanVoteIffVoteAccepted(users: map<UserId, User>, photos: map<PhotoId, Photo>, votes: seq<Vote>,
                               uid: UserId, photoId: PhotoId)
    requires uid in users && photoId in photos
    ensures CanVote(users[uid].role, uid, photoId, photos[photoId], votes)
            <==> VoteRefusal(users, photos, votes, SignedIn(uid), photoId).None?
  {
  }

  /** An owner can never vote for their own photo, whatever its status and role. */
  lemma OwnerNeverVotes(users: map<UserId, User>, photos: map<PhotoId, Photo>, votes: seq<Vote>,
                        s: Session, photoId: PhotoId)
    requires s.SignedIn? && photoId in photos && photos[photoId].owner == s.userId
    ensures VoteRefusal(users, photos, votes, s, photoId).Some?
  {
  }

  /** A pending or rejected photo never receives a vote. */
  lemma OnlyApprovedPhotosReceiveVotes(users: map<UserId, User>, photos: map<PhotoId, Photo>, votes: seq<Vote>,
                                       s: Session, photoId: PhotoId)
    requires photoId in photos && photos[photoId].status != Approved
    ensures VoteRefusal(users, photos, votes, s, photoId).Some?
  {
  }

  /**
   * The duplicate check comes before the self-vote check, but in a ledger
   * that keeps its invariant the two conditions never hold together, so the
   * order never decides which refusal is given.
   */
  lemma DuplicateAndSelfVoteExclusive(users: map<UserId, User>, photos: map<PhotoId, Photo>, votes: seq<Vote>,
                                      uid: UserId, photoId: PhotoId)
    requires LedgerInvariant(users, photos, votes)
    ensures !(Vote(uid, photoId) in votes && photoId in photos && photos[photoId].owner == uid)
  {
  }

  /** After an accepted vote the same user's next vote for that photo is refused as a duplicate. */
  lemma SecondVoteRefused(users: map<UserId, User>, photos: map<PhotoId, Photo>, votes: seq<Vote>,
                          uid: UserId, photoId: PhotoId)
    requires VoteRefusal(users, photos, votes, SignedIn(uid), photoId).None?
    ensures photoId in photos
    ensures VoteRefusal(users,
                        photos[photoId := photos[photoId].(votesCount := photos[photoId].votesCount + 1)],
                        votes + [Vote(uid, photoId)], SignedIn(uid), photoId) == Some(AlreadyVoted)
  {
    assert Vote(uid, photoId) in votes + [Vote(uid, photoId)];
  }

  /** An accepted vote keeps the ledger invariant when it appends its row and raises the count. */
  lemma {:induction false} AcceptedVoteKeepsLedger(users: map<UserId, User>, photos: map<PhotoId, Photo>,
                                                   votes: seq<Vote>, uid: UserId, photoId: PhotoId)
    requires LedgerInvariant(users, photos, votes)
    requires uid in users && IsVoter(users[uid].role) && photoId in photos
    requires Vote(uid, photoId) !in votes && photos[photoId].owner != uid
    ensures LedgerInvariant(users,
                            photos[photoId := photos[photoId].(votesCount := photos[photoId].votesCount + 1)],
                            votes + [Vote(uid, photoId)])
  {
    var v := Vote(uid, photoId);
    var photos' := photos[photoId := photos[photoId].(votesCount := photos[photoId].votesCount + 1)];
    forall id | id in photos' ensures photos'[id].votesCount == VotesFor(votes + [v], id) {
      VotesForAppend(votes, v, id);
    }
  }

  // -------------------------------------------------------------- comments

  /** Stored comment text: already stripped, and not empty. */
  predicate IsStrippedText(content: string) {
    content != [] && Strip(content) == content
  }

  /** The comment route: photo exists, the content is not blank, and the photo is visible to the author. */
  function CommentRefusal(users: map<UserId, User>, photos: map<PhotoId, Photo>, s: Session,
                          photoId: PhotoId, content: Option<string>): (r: Option<Failure>)
    ensures r == Some(Redirected) <==> !IsAuthenticated(users, s)
    // each refusal, in the order the route checks
    ensures r == Some(NotFound) <==> IsAuthenticated(users, s) && photoId !in photos
    ensures r == Some(EmptyComment) <==>
              IsAuthenticated(users, s) && photoId in photos && (content.None? || AllSpace(content.value))
    ensures r == Some(CommentForbidden) <==>
              IsAuthenticated(users, s) && photoId in photos && content.Some? && !AllSpace(content.value)
              && photos[photoId].status != Approved && !IsAdmin(users[s.userId].role)
              && s.userId != photos[photoId].owner
    ensures r.None? <==>
              IsAuthenticated(users, s) && photoId in photos && content.Some? && !AllSpace(content.value)
              && (photos[photoId].status == Approved || IsAdmin(users[s.userId].role)
                  || s.userId == photos[photoId].owner)
  {
    match Check(LoginRequired, users, s)
    case Redirect => Some(Redirected)
    case Proceed(uid, role) =>
      if photoId !in photos then Some(NotFound)
      else if content.None? || Strip(content.value) == [] then Some(EmptyComment)
      else if photos[photoId].status != Approved && !(IsAdmin(role) || uid == photos[photoId].owner)
      then Some(CommentForbidden)
      else None
  }

  /** Blank content is refused before the visibility gate is consulted; what is stored is stripped text. */
  lemma CommentContentRules(users: map<UserId, User>, photos: map<PhotoId, Photo>, s: Session,
                            photoId: PhotoId, content: Option<string>)
    requires IsAuthenticated(users, s) && photoId in photos
    ensures content.None? || AllSpace(content.value) ==>
              CommentRefusal(users, photos, s, photoId, content) == Some(EmptyComment)
    ensures CommentRefusal(users, photos, s, photoId, content).None? ==> IsStrippedText(Strip(content.value))
  {
    if content.Some? {
      StripIdempotent(content.value);
    }
  }

  // ---------------------------------------------------------- photo detail

  /** photo_detail: a photo that is not approved is shown only to an admin or to its owner. */
  function PhotoDetail(users: map<UserId, User>, photos: map<PhotoId, Photo>, s: Session,
                       photoId: PhotoId): (r: Result<Photo>)
    ensures r == Err(NotFound) <==> photoId !in photos
    ensures r.Err? ==> r.error == NotFound || r.error == NotVisible
    ensures r.Ok? ==> photoId in photos && r.value == photos[photoId]
  {
    if photoId !in photos then Err(NotFound)
    else
      var photo := photos[photoId];
      if photo.status != Approved && !IsAuthenticated(users, s) then Err(NotVisible)
      else if photo.status != Approved && IsAuthenticated(users, s)
              && !(IsAdmin(users[s.userId].role) || s.userId == photo.owner) then Err(NotVisible)
      else Ok(photo)
  }

  /** Approved photos are visible to everyone, the others to an authenticated admin or owner only. */
  lemma DetailVisibility(users: map<UserId, User>, photos: map<PhotoId, Photo>, s: Session, photoId: PhotoId)
    ensures PhotoDetail(users, photos, s, photoId).Ok? <==>
              photoId in photos &&
              (photos[photoId].status == Approved ||
               (IsAuthenticated(users, s) && (IsAdmin(users[s.userId].role) || s.userId == photos[photoId].owner)))
    ensures PhotoDetail(users, photos, s, photoId).Ok? ==> PhotoDetail(users, photos, s, photoId).value == photos[photoId]
  {
  }

  /** A signed-in user may comment (non-blank text) on exactly the photos whose detail page they may see. */
  lemma CommentGateMatchesDetail(users: map<UserId, User>, photos: map<PhotoId, Photo>, s: Session,
                                 photoId: PhotoId, text: string)
    requires IsAuthenticated(users, s) && photoId in photos && !AllSpace(text)
    ensures CommentRefusal(users, photos, s, photoId, Some(text)).None? <==>
            PhotoDetail(users, photos, s, photoId).Ok?
  {
  }

  // ---------------------------------------------------------- photo edits

  /** edit_photo and update_photo: participant guard, photo exists, owner or admin, still pending. */
  function EditRefusal(users: map<UserId, User>, photos: map<PhotoId, Photo>, s: Session,
                       photoId: PhotoId): (r: Option<Failure>)
    ensures r == Some(Redirected) <==> !(IsAuthenticated(users, s) && IsParticipant(users[s.userId].role))
    ensures r == Some(NotFound) <==>
              IsAuthenticated(users, s) && IsParticipant(users[s.userId].role) && photoId !in photos
    ensures r == Some(Unauthorized) <==>
              IsAuthenticated(users, s) && IsParticipant(users[s.userId].role) && photoId in photos
              && photos[photoId].owner != s.userId
    ensures r == Some(NotPending) <==>
              IsAuthenticated(users, s) && IsParticipant(users[s.userId].role) && photoId in photos
              && photos[photoId].owner == s.userId && photos[photoId].status != Pending
  {
    match Check(ParticipantRequired, users, s)
    case Redirect => Some(Redirected)
    case Proceed(uid, role) =>
      if photoId !in photos then Some(NotFound)
      else if photos[photoId].owner != uid && !IsAdmin(role) then Some(Unauthorized)
      else if photos[photoId].status != Pending then Some(NotPending)
      else None
  }

  /**
   * Only the owner, a participant, edits, and only while the photo is
   * pending: the admin exemption in the handler is unreachable behind
   * participant_required.
   */
  lemma EditOnlyOwnPending(users: map<UserId, User>, photos: map<PhotoId, Photo>, s: Session, photoId: PhotoId)
    ensures EditRefusal(users, photos, s, photoId).None? <==>
              IsAuthenticated(users, s) && IsParticipant(users[s.userId].role) && photoId in photos
              && photos[photoId].owner == s.userId && photos[photoId].status == Pending
  {
  }

  /** update_photo's new title: a missing or empty title keeps the old one. */
  function EditedTitle(old_title: string, title: Option<string>): (t: string)
    ensures title.Some? && title.value != [] ==> t == title.value
    ensures title.None? || title.value == [] ==> t == old_title
  {
    if title.Some? && title.value != [] then title.value else old_title
  }

  // ------------------------------------------------------------ moderation

  /** The three admin routes that set a photo's status. */
  datatype Moderation = Approve | Reject | Revert

  function TargetStatus(m: Moderation): (st: Status)
    ensures st == Approved <==> m == Approve
    ensures st == Rejected <==> m == Reject
    ensures st == Pending <==> m == Revert
  {
    match m
    case Approve => Approved
    case Reject => Rejected
    case Revert => Pending
  }

  /** The event of a moderation notice: each says what has been done, and only an approval is exclaimed. */
  function ModerationEvent(m: Moderation): (e: string)
    ensures |e| > 9 && e[..9] == "has been "
    ensures e[|e| - 1] == (if m == Approve then '!' else '.')
  {
    match m
    case Approve => "has been approved!"
    case Reject => "has been rejected."
    case Revert => "has been reverted to pending status."
  }

  /** The owner can tell from a moderation notice which of the three actions was taken. */
  lemma ModerationNoticesDistinct(title: string, m1: Moderation, m2: Moderation)
    ensures PhotoMessage(title, ModerationEvent(m1)) == PhotoMessage(title, ModerationEvent(m2)) ==> m1 == m2
  {
    var e1, e2 := ModerationEvent(m1), ModerationEvent(m2);
    if PhotoMessage(title, e1) == PhotoMessage(title, e2) {
      var msg := PhotoMessage(title, e1);
      assert |e1| == |e2|;
      assert e1 == msg[|msg| - |e1|..] == e2;
      assert ModerationEvent(Approve)[9] == 'a' && ModerationEvent(Reject)[9] == 'r';
    }
  }

  /** approve_photo, reject_photo, revert_photo: admin guard, photo exists; the current status is not consulted. */
  function ModerationRefusal(users: map<UserId, User>, photos: map<PhotoId, Photo>, s: Session,
                             photoId: PhotoId): (r: Option<Failure>)
    ensures r == Some(Redirected) <==> !(IsAuthenticated(users, s) && IsAdmin(users[s.userId].role))
    ensures r == Some(NotFound) <==> IsAuthenticated(users, s) && IsAdmin(users[s.userId].role) && photoId !in photos
    ensures r.None? <==> IsAuthenticated(users, s) && IsAdmin(users[s.userId].role) && photoId in photos
  {
    match Check(AdminRequired, users, s)
    case Redirect => Some(Redirected)
    case Proceed(_, _) => if photoId !in photos then Some(NotFound) else None
  }

  /** Every status can reach every other: the three actions land on three different statuses. */
  lemma ModerationReachesEveryStatus(st: Status)
    ensures exists m :: TargetStatus(m) == st
  {
    match st
    case Pending => assert TargetStatus(Revert) == st;
    case Approved => assert TargetStatus(Approve) == st;
    case Rejected => assert TargetStatus(Reject) == st;
  }

  // ---------------------------------------------------------------- upload

  /** upload_photo: participant guard, a file is present, and save_photo accepts its name. */
  function UploadRefusal(users: map<UserId, User>, s: Session, file: Option<string>): (r: Option<Failure>)
    ensures r.None? <==>
              IsAuthenticated(users, s) && IsParticipant(users[s.userId].role) && file.Some? && AllowedFile(file.value)
    ensures r == Some(Redirected) <==> !(IsAuthenticated(users, s) && IsParticipant(users[s.userId].role))
    ensures r == Some(MissingFile) <==>
              IsAuthenticated(users, s) && IsParticipant(users[s.userId].role) && file.None?
    ensures r == Some(InvalidFileType) <==>
              IsAuthenticated(users, s) && IsParticipant(users[s.userId].role) && file.Some? && !AllowedFile(file.value)
  {
    match Check(ParticipantRequired, users, s)
    case Redirect => Some(Redirected)
    case Proceed(_, _) =>
      if file.None? then Some(MissingFile)
      else if !AllowedFile(file.value) then Some(InvalidFileType)
      else None
  }

  // ---------------------------------------------------------- registration

  /** register: nobody may be signed in, and the email must be new. */
  function RegisterRefusal(users: map<UserId, User>, s: Session, email: string): (r: Option<Failure>)
    ensures r == Some(SignedInAlready) <==> IsAuthenticated(users, s)
    ensures r == Some(EmailTaken) <==>
              !IsAuthenticated(users, s) && exists id :: id in users && users[id].email == email
    ensures r.None? <==> !IsAuthenticated(users, s) && forall id :: id in users ==> users[id].email != email
  {
    if IsAuthenticated(users, s) then Some(SignedInAlready)
    else if exists id :: id in users && users[id].email == email then Some(EmailTaken)
    else None
  }

  /** The role stored at registration: an "admin" request is stored as "participant". */
  function RegisteredRole(requested: string): (role: string)
    ensures !IsAdmin(role)
    ensures requested == ADMIN ==> role == PARTICIPANT
    ensures requested != ADMIN ==> role == requested
  {
    if requested == ADMIN then PARTICIPANT else requested
  }

  // --------------------------------------------------------- notifications

  predicate IdsIncreasing(ns: seq<Notification>) {
    forall i, j :: 0 <= i < j < |ns| ==> ns[i].id < ns[j].id
  }

  predicate IdsDecreasing(ns: seq<Notification>) {
    forall i, j :: 0 <= i < j < |ns| ==> ns[i].id > ns[j].id
  }

  /** get_or_404 on the notification table: the position of the row with this id. */
  function FindNotification(ns: seq<Notification>, id: nat): (r: Option<nat>)
    ensures r.Some? ==> r.value < |ns| && ns[r.value].id == id
    ensures r.None? ==> forall k :: 0 <= k < |ns| ==> ns[k].id != id
  {
    if ns == [] then None
    else if ns[0].id == id then Some(0)
    else
      var r := FindNotification(ns[1..], id);
      if r.Some? then Some(r.value + 1) else None
  }

  /** mark_notification_read: the notification exists and belongs to the caller. */
  function MarkReadRefusal(users: map<UserId, User>, ns: seq<Notification>, s: Session, id: nat): (r: Option<Failure>)
    ensures r == Some(Redirected) <==> !IsAuthenticated(users, s)
    ensures r == Some(NotFound) <==> IsAuthenticated(users, s) && forall k :: 0 <= k < |ns| ==> ns[k].id != id
    ensures r.None? ==>
              IsAuthenticated(users, s) && exists k :: 0 <= k < |ns| && ns[k].id == id && ns[k].userId == s.userId
    ensures r == Some(Unauthorized) ==>
              IsAuthenticated(users, s) && exists k :: 0 <= k < |ns| && ns[k].id == id && ns[k].userId != s.userId
    // with distinct ids the row is determined, so both directions hold
    ensures IdsIncreasing(ns) ==>
              (r.None? <==>
                 IsAuthenticated(users, s) && exists k :: 0 <= k < |ns| && ns[k].id == id && ns[k].userId == s.userId)
    ensures IdsIncreasing(ns) ==>
              (r == Some(Unauthorized) <==>
                 IsAuthenticated(users, s) && exists k :: 0 <= k < |ns| && ns[k].id == id && ns[k].userId != s.userId)
  {
    match Check(LoginRequired, users, s)
    case Redirect => Some(Redirected)
    case Proceed(uid, _) =>
      var k := FindNotification(ns, id);
      if k.None? then Some(NotFound)
      else if ns[k.value].userId != uid then Some(Unauthorized)
      else None
  }

  /** The caller's unread notifications, newest first (the list behind get_notifications). */
  function UnreadNewestFirst(ns: seq<Notification>, uid: UserId): (r: seq<Notification>)
    ensures forall n :: n in r <==> n in ns && n.userId == uid && !n.isRead
    ensures IdsIncreasing(ns) ==> IdsDecreasing(r)
  {
    if ns == [] then []
    else
      var rest := UnreadNewestFirst(ns[1..], uid);
      assert forall n :: n in ns <==> n == ns[0] || n in ns[1..];
      var r := if ns[0].userId == uid && !ns[0].isRead then rest + [ns[0]] else rest;
      assert IdsIncreasing(ns) ==> IdsDecreasing(r) by {
        if IdsIncreasing(ns) {
          assert IdsIncreasing(ns[1..]) by {
            forall i, j | 0 <= i < j < |ns[1..]| ensures ns[1..][i].id < ns[1..][j].id {
              assert ns[1..][i] == ns[i + 1] && ns[1..][j] == ns[j + 1];
            }
          }
          forall n | n in rest ensures n.id > ns[0].id {
            var k :| 0 <= k < |ns[1..]| && ns[1..][k] == n;
            assert ns[k + 1] == n;
          }
        }
      }
      r
  }

  /** clear_notifications: every unread row of uid becomes read; all else stays. */
  function MarkAllRead(ns: seq<Notification>, uid: UserId): (r: seq<Notification>)
    ensures |r| == |ns|
    ensures forall k :: 0 <= k < |ns| ==>
              r[k].id == ns[k].id && r[k].userId == ns[k].userId && r[k].message == ns[k].message
              && (r[k].isRead <==> ns[k].isRead || ns[k].userId == uid)
  {
    if ns == [] then []
    else
      var n := ns[0];
      [if n.userId == uid then n.(isRead := true) else n] + MarkAllRead(ns[1..], uid)
  }

  /** After clearing, the caller has no unread notification left. */
  lemma {:induction false} ClearLeavesNothingUnread(ns: seq<Notification>, uid: UserId)
    ensures UnreadNewestFirst(MarkAllRead(ns, uid), uid) == []
  {
    if ns != [] {
      var m := MarkAllRead(ns, uid);
      assert m[1..] == MarkAllRead(ns[1..], uid);
      ClearLeavesNothingUnread(ns[1..], uid);
    }
  }

  /** Clearing leaves every other user's unread list exactly as it was. */
  lemma {:induction false} ClearSparesOthers(ns: seq<Notification>, uid: UserId, other: UserId)
    requires other != uid
    ensures UnreadNewestFirst(MarkAllRead(ns, uid), other) == UnreadNewestFirst(ns, other)
  {
    if ns != [] {
      var m := MarkAllRead(ns, uid);
      assert m[1..] == MarkAllRead(ns[1..], uid);
      ClearSparesOthers(ns[1..], uid, other);
    }
  }
}
