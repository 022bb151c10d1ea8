/**
 * The contest workflow behind the routes of app.py, as one object holding
 * the five tables. Every route first runs its checks (the refusal
 * functions of Rules); a refused request returns before it changes
 * anything, and an accepted one makes the route's changes and adds the
 * route's notifications.
 */
module Workflow {

  import opened Wrappers
  import opened Models
  import opened Text
  import opened Utils
  import opened Auth
  import opened Rules
  import Ranking

  /** Autoincrement user ids below the next one, and no email stored twice. */
  ghost predicate UsersInvariant(users: map<UserId, User>, nextUserId: UserId) {
    && (forall id :: id in users ==> id < nextUserId)
    && UniqueEmails(users)
  }

  /** Autoincrement photo ids below the next one, each photo owned by a stored user. */
  ghost predicate PhotosInvariant(users: map<UserId, User>, photos: map<PhotoId, Photo>, nextPhotoId: PhotoId) {
    forall id :: id in photos ==> id < nextPhotoId && photos[id].owner in users
  }

  /** Every comment belongs to a stored photo and user, and holds active, stripped, non-empty text. */
  ghost predicate CommentsInvariant(users: map<UserId, User>, photos: map<PhotoId, Photo>, comments: seq<Comment>) {
    forall c :: c in comments ==>
      c.photoId in photos && c.authorId in users && IsStrippedText(c.content) && c.status == Active
  }

  /** Notification ids count up from 1 in insertion order, and each is addressed to a stored user. */
  ghost predicate NotificationsInvariant(users: map<UserId, User>, notifications: seq<Notification>) {
    forall k :: 0 <= k < |notifications| ==> notifications[k].id == k + 1 && notifications[k].userId in users
  }

  /** Rewriting a photo without changing its owner keeps the photo and comment invariants. */
  lemma SameOwnerKeepsInvariants(users: map<UserId, User>, photos: map<PhotoId, Photo>, nextPhotoId: PhotoId,
                                 comments: seq<Comment>, photoId: PhotoId, edited: Photo)
    requires photoId in photos && edited.owner == photos[photoId].owner
    requires PhotosInvariant(users, photos, nextPhotoId)
    requires CommentsInvariant(users, photos, comments)
    ensures PhotosInvariant(users, photos[photoId := edited], nextPhotoId)
    ensures CommentsInvariant(users, photos[photoId := edited], comments)
  {
  }

  /**
   * Changing a photo's status, title or description, but not its owner or
   * its count, keeps every invariant that mentions photos.
   */
  lemma PhotoEditKeepsInvariants(users: map<UserId, User>, photos: map<PhotoId, Photo>, nextPhotoId: PhotoId,
                                 votes: seq<Vote>, comments: seq<Comment>, photoId: PhotoId, edited: Photo)
    requires photoId in photos
    requires edited.owner == photos[photoId].owner && edited.votesCount == photos[photoId].votesCount
    requires PhotosInvariant(users, photos, nextPhotoId)
    requires LedgerInvariant(users, photos, votes)
    requires CommentsInvariant(users, photos, comments)
    ensures PhotosInvariant(users, photos[photoId := edited], nextPhotoId)
    ensures LedgerInvariant(users, photos[photoId := edited], votes)
    ensures CommentsInvariant(users, photos[photoId := edited], comments)
  {
  }

  /** An accepted vote's row and count rise keep every invariant that mentions photos or votes. */
  lemma VoteKeepsInvariants(users: map<UserId, User>, photos: map<PhotoId, Photo>, nextPhotoId: PhotoId,
                            votes: seq<Vote>, comments: seq<Comment>, uid: UserId, photoId: PhotoId,
                            photos': map<PhotoId, Photo>, votes': seq<Vote>)
    requires PhotosInvariant(users, photos, nextPhotoId)
    requires LedgerInvariant(users, photos, votes)
    requires CommentsInvariant(users, photos, comments)
    requires uid in users && IsVoter(users[uid].role) && photoId in photos
    requires Vote(uid, photoId) !in votes && photos[photoId].owner != uid
    requires photos' == photos[photoId := photos[photoId].(votesCount := photos[photoId].votesCount + 1)]
    requires votes' == votes + [Vote(uid, photoId)]
    ensures PhotosInvariant(users, photos', nextPhotoId)
    ensures LedgerInvariant(users, photos', votes')
    ensures CommentsInvariant(users, photos', comments)
    ensures photos'[photoId].votesCount == VotesFor(votes', photoId) == VotesFor(votes, photoId) + 1
  {
    AcceptedVoteKeepsLedger(users, photos, votes, uid, photoId);
    SameOwnerKeepsInvariants(users, photos, nextPhotoId, comments, photoId, photos'[photoId]);
    VotesForAppend(votes, Vote(uid, photoId), photoId);
  }

  /** Removing a photo together with its votes and comments keeps every invariant that mentions photos. */
  lemma CascadeKeepsInvariants(users: map<UserId, User>, photos: map<PhotoId, Photo>, nextPhotoId: PhotoId,
                               votes: seq<Vote>, comments: seq<Comment>, photoId: PhotoId)
    requires PhotosInvariant(users, photos, nextPhotoId)
    requires LedgerInvariant(users, photos, votes)
    requires CommentsInvariant(users, photos, comments)
    ensures PhotosInvariant(users, photos - {photoId}, nextPhotoId)
    ensures LedgerInvariant(users, photos - {photoId}, VotesWithout(votes, photoId))
    ensures CommentsInvariant(users, photos - {photoId}, CommentsWithout(comments, photoId))
  {
  }

  class Contest {
    var users: map<UserId, User>
    var photos: map<PhotoId, Photo>
    var votes: seq<Vote>
    var comments: seq<Comment>
    var notifications: seq<Notification>
    /** The next ids the autoincrementing keys hand out. */
    var nextUserId: UserId
    var nextPhotoId: PhotoId

    ghost predicate Valid()
      reads this
    {
      && UsersInvariant(users, nextUserId)
      && PhotosInvariant(users, photos, nextPhotoId)
      && LedgerInvariant(users, photos, votes)
      && CommentsInvariant(users, photos, comments)
      && NotificationsInvariant(users, notifications)
    }

    constructor ()
      ensures Valid()
      ensures users == map[] && photos == map[] && votes == [] && comments == [] && notifications == []
    {
      users, photos, votes, comments, notifications := map[], map[], [], [], [];
      nextUserId, nextPhotoId := 1, 1;
    }

    /** create_notification: one new unread row for the user, never merged with an equal one. */
    method Notify(userId: UserId, message: string)
      requires Valid() && userId in users
      modifies this
      ensures Valid()
      ensures notifications == old(notifications) + [NewNotification(|old(notifications)| + 1, userId, message)]
      ensures unchanged(this`users, this`photos, this`votes, this`comments, this`nextUserId, this`nextPhotoId)
    {
      notifications := notifications + [NewNotification(|notifications| + 1, userId, message)];
    }

    // --------------------------------------------------------------- votes

    /** The vote route: on success one vote row, the count raised by one, and a notification to the owner. */
    method CastVote(s: Session, photoId: PhotoId) returns (r: Result<nat>)
      requires Valid()
      modifies this
      ensures Valid()
      ensures r.Err? <==> old(VoteRefusal(users, photos, votes, s, photoId)).Some?
      ensures r.Err? ==> Some(r.error) == old(VoteRefusal(users, photos, votes, s, photoId)) && unchanged(this)
      ensures r.Ok? ==> s.SignedIn? && photoId in old(photos)
      ensures r.Ok? ==> votes == old(votes) + [Vote(s.userId, photoId)]
      ensures r.Ok? ==> photos == old(photos)[photoId := old(photos[photoId]).(votesCount := old(photos[photoId].votesCount) + 1)]
      ensures r.Ok? ==> r.value == VotesFor(votes, photoId) == VotesFor(old(votes), photoId) + 1
      ensures r.Ok? ==>
                notifications == old(notifications) +
                [NewNotification(|old(notifications)| + 1, old(photos[photoId].owner), PhotoMessage(old(photos[photoId].title), NEW_VOTE))]
      ensures r.Ok? ==> unchanged(this`users, this`comments, this`nextUserId, this`nextPhotoId)
    {
      if !IsAuthenticated(users, s) { return Err(Redirected); }
      var uid := s.userId;
      if !IsVoter(users[uid].role) { return Err(NoVotePermission); }
      if photoId !in photos { return Err(NotFound); }
      var photo := photos[photoId];
      if photo.status != Approved { return Err(NotApproved); }
      if Vote(uid, photoId) in votes { return Err(AlreadyVoted); }
      if photo.owner == uid { return Err(OwnPhoto); }

      RecordVote(uid, photoId);
      r := Ok(photos[photoId].votesCount);
    }

    /** The accepted branch of the vote route: the row, the count and the owner's notification. */
    method RecordVote(uid: UserId, photoId: PhotoId)
      requires Valid()
      requires uid in users && IsVoter(users[uid].role) && photoId in photos
      requires photos[photoId].status == Approved && Vote(uid, photoId) !in votes && photos[photoId].owner != uid
      modifies this
      ensures Valid()
      ensures votes == old(votes) + [Vote(uid, photoId)]
      ensures photos == old(photos)[photoId := old(photos[photoId]).(votesCount := old(photos[photoId].votesCount) + 1)]
      ensures photos[photoId].votesCount == VotesFor(votes, photoId) == VotesFor(old(votes), photoId) + 1
      ensures notifications == old(notifications) +
                [NewNotification(|old(notifications)| + 1, old(photos[photoId].owner), PhotoMessage(old(photos[photoId].title), NEW_VOTE))]
      ensures unchanged(this`users, this`comments, this`nextUserId, this`nextPhotoId)
    {
      var photo := photos[photoId];
      var counted := photo.(votesCount := photo.votesCount + 1);
      var photos', votes' := photos[photoId := counted], votes + [Vote(uid, photoId)];
      VoteKeepsInvariants(users, photos, nextPhotoId, votes, comments, uid, photoId, photos', votes');
      votes, photos := votes', photos';
      Notify(photo.owner, PhotoMessage(photo.title, NEW_VOTE));
    }

    /** The can_vote flag of the vote-status endpoint, for a signed-in user and an existing photo. */
    function VoteStatus(s: Session, photoId: PhotoId): (r: Result<bool>)
      reads this
      ensures r == Err(Redirected) <==> !IsAuthenticated(users, s)
      ensures r == Err(NotFound) <==> IsAuthenticated(users, s) && photoId !in photos
      ensures r.Err? ==> r.error == Redirected || r.error == NotFound
      ensures r.Ok? <==> IsAuthenticated(users, s) && photoId in photos
      ensures r.Ok? ==> (r.value <==> VoteRefusal(users, photos, votes, s, photoId).None?)
    {
      if !IsAuthenticated(users, s) then Err(Redirected)
      else if photoId !in photos then Err(NotFound)
      else
        CanVoteIffVoteAccepted(users, photos, votes, s.userId, photoId);
        Ok(CanVote(users[s.userId].role, s.userId, photoId, photos[photoId], votes))
    }

    // ------------------------------------------------------------ comments

    /** add_comment: on success one active comment holding the stripped text, and a notification to the owner. */
    method AddComment(s: Session, photoId: PhotoId, content: Option<string>) returns (r: Result<Comment>)
      requires Valid()
      modifies this
      ensures Valid()
      ensures r.Err? <==> old(CommentRefusal(users, photos, s, photoId, content)).Some?
      ensures r.Err? ==> Some(r.error) == old(CommentRefusal(users, photos, s, photoId, content)) && unchanged(this)
      ensures r.Ok? ==>
        && s.SignedIn? && photoId in old(photos) && content.Some?
        && r.value == NewComment(s.userId, photoId, Strip(content.value))
        && comments == old(comments) + [r.value]
        && notifications == old(notifications) +
             [NewNotification(|old(notifications)| + 1, old(photos[photoId].owner), PhotoMessage(old(photos[photoId].title), NEW_COMMENT))]
        && unchanged(this`users, this`photos, this`votes, this`nextUserId, this`nextPhotoId)
    {
      if !IsAuthenticated(users, s) { return Err(Redirected); }
      var uid := s.userId;
      if photoId !in photos { return Err(NotFound); }
      var photo := photos[photoId];
      if content.None? || Strip(content.value) == [] { return Err(EmptyComment); }
      if photo.status != Approved {
        if !(IsAdmin(users[uid].role) || uid == photo.owner) { return Err(CommentForbidden); }
      }

      CommentContentRules(users, photos, s, photoId, content);
      var comment := NewComment(uid, photoId, Strip(content.value));
      comments := comments + [comment];
      Notify(photo.owner, PhotoMessage(photo.title, NEW_COMMENT));
      r := Ok(comment);
    }

    // ---------------------------------------------------------- moderation

    /** approve_photo / reject_photo / revert_photo: from any status, plus one notification to the owner. */
    method Moderate(s: Session, photoId: PhotoId, action: Moderation) returns (r: Result<()>)
      requires Valid()
      modifies this
      ensures Valid()
      ensures r.Err? <==> old(ModerationRefusal(users, photos, s, photoId)).Some?
      ensures r.Err? ==> Some(r.error) == old(ModerationRefusal(users, photos, s, photoId)) && unchanged(this)
      ensures r.Ok? ==>
        && photoId in old(photos)
        && photos == old(photos)[photoId := old(photos[photoId]).(status := TargetStatus(action))]
        && notifications == old(notifications) +
             [NewNotification(|old(notifications)| + 1, old(photos[photoId].owner),
                              PhotoMessage(old(photos[photoId].title), ModerationEvent(action)))]
        && unchanged(this`users, this`votes, this`comments, this`nextUserId, this`nextPhotoId)
    {
      if Check(AdminRequired, users, s).Redirect? { return Err(Redirected); }
      if photoId !in photos { return Err(NotFound); }
      var photo := photos[photoId];
      PhotoEditKeepsInvariants(users, photos, nextPhotoId, votes, comments, photoId, photo.(status := TargetStatus(action)));
      photos := photos[photoId := photo.(status := TargetStatus(action))];
      Notify(photo.owner, PhotoMessage(photo.title, ModerationEvent(action)));
      r := Ok(());
    }

    // ------------------------------------------------------------- uploads

    /** upload_photo: a new pending photo with no votes, owned by the caller, and a notification to the caller. */
    method UploadPhoto(s: Session, title: string, description: string, file: Option<string>) returns (r: Result<PhotoId>)
      requires Valid()
      modifies this
      ensures Valid()
      ensures r.Err? <==> old(UploadRefusal(users, s, file)).Some?
      ensures r.Err? ==> Some(r.error) == old(UploadRefusal(users, s, file)) && unchanged(this)
      ensures r.Ok? ==>
        && s.SignedIn? && r.value !in old(photos)
        && photos == old(photos)[r.value := NewPhoto(s.userId, title, description)]
        && photos[r.value].status == Pending && VotesFor(votes, r.value) == 0
        && notifications == old(notifications) +
             [NewNotification(|old(notifications)| + 1, s.userId, PhotoMessage(title, SUBMITTED))]
        && nextPhotoId == old(nextPhotoId) + 1
        && unchanged(this`users, this`votes, this`comments, this`nextUserId)
    {
      if Check(ParticipantRequired, users, s).Redirect? { return Err(Redirected); }
      if file.None? { return Err(MissingFile); }
      if !AllowedFile(file.value) { return Err(InvalidFileType); }

      var id := nextPhotoId;
      VotesForAbsent(votes, id);
      photos := photos[id := NewPhoto(s.userId, title, description)];
      nextPhotoId := nextPhotoId + 1;
      Notify(s.userId, PhotoMessage(title, SUBMITTED));
      r := Ok(id);
    }

    /** edit_photo: the current title and description, behind the same checks as update_photo. */
    function EditPhotoForm(s: Session, photoId: PhotoId): (r: Result<(string, string)>)
      reads this
      ensures r.Err? <==> EditRefusal(users, photos, s, photoId).Some?
      ensures r.Err? ==> Some(r.error) == EditRefusal(users, photos, s, photoId)
      ensures r.Ok? ==> photoId in photos && r.value == (photos[photoId].title, photos[photoId].description)
                        && photos[photoId].owner == s.userId && photos[photoId].status == Pending
    {
      EditOnlyOwnPending(users, photos, s, photoId);
      match EditRefusal(users, photos, s, photoId)
      case Some(f) => Err(f)
      case None => Ok((photos[photoId].title, photos[photoId].description))
    }

    /** update_photo: the owner's pending photo gets the new description, and the new title unless it is empty. */
    method UpdatePhoto(s: Session, photoId: PhotoId, title: Option<string>, description: Option<string>)
      returns (r: Result<()>)
      requires Valid()
      modifies this
      ensures Valid()
      ensures r.Err? <==> old(EditRefusal(users, photos, s, photoId)).Some?
      ensures r.Err? ==> Some(r.error) == old(EditRefusal(users, photos, s, photoId)) && unchanged(this)
      ensures r.Ok? ==>
        && photoId in old(photos) && old(photos[photoId].owner) == s.userId
        && photos == old(photos)[photoId := old(photos[photoId]).(
             title := EditedTitle(old(photos[photoId].title), title),
             description := if description.Some? then description.value else "")]
        && unchanged(this`users, this`votes, this`comments, this`notifications, this`nextUserId, this`nextPhotoId)
    {
      EditOnlyOwnPending(users, photos, s, photoId);
      if Check(ParticipantRequired, users, s).Redirect? { return Err(Redirected); }
      var uid := s.userId;
      if photoId !in photos { return Err(NotFound); }
      var photo := photos[photoId];
      if photo.owner != uid && !IsAdmin(users[uid].role) { return Err(Unauthorized); }
      if photo.status != Pending { return Err(NotPending); }

      var newTitle := EditedTitle(photo.title, title);
      var newDescription := if description.Some? then description.value else "";
      PhotoEditKeepsInvariants(users, photos, nextPhotoId, votes, comments, photoId,
                               photo.(title := newTitle, description := newDescription));
      photos := photos[photoId := photo.(title := newTitle, description := newDescription)];
      r := Ok(());
    }

    /** Deleting a photo row: the ORM cascade removes its votes and its comments with it. */
    method DeletePhoto(photoId: PhotoId)
      requires Valid()
      modifies this
      ensures Valid()
      ensures photos == old(photos) - {photoId}
      ensures votes == VotesWithout(old(votes), photoId) && comments == CommentsWithout(old(comments), photoId)
      ensures forall v :: v in votes ==> v.photoId != photoId
      ensures forall c :: c in comments ==> c.photoId != photoId
      ensures unchanged(this`users, this`notifications, this`nextUserId, this`nextPhotoId)
    {
      CascadeKeepsInvariants(users, photos, nextPhotoId, votes, comments, photoId);
      photos := photos - {photoId};
      votes := VotesWithout(votes, photoId);
      comments := CommentsWithout(comments, photoId);
    }

    // --------------------------------------------------------- registration

    /** register: a new user with the requested role, except that "admin" becomes "participant". */
    method Register(s: Session, username: string, email: string, role: string) returns (r: Result<UserId>)
      requires Valid()
      modifies this
      ensures Valid()
      ensures r.Err? <==> old(RegisterRefusal(users, s, email)).Some?
      ensures r.Err? ==> Some(r.error) == old(RegisterRefusal(users, s, email)) && unchanged(this)
      ensures r.Ok? ==>
        && r.value !in old(users)
        && users == old(users)[r.value := User(email, username, RegisteredRole(role))]
        && !IsAdmin(users[r.value].role)
        && nextUserId == old(nextUserId) + 1
        && unchanged(this`photos, this`votes, this`comments, this`notifications, this`nextPhotoId)
    {
      if IsAuthenticated(users, s) { return Err(SignedInAlready); }
      if exists id | id in users :: users[id].email == email { return Err(EmailTaken); }
      var stored := RegisteredRole(role);
      var id := nextUserId;
      users := users[id := User(email, username, stored)];
      nextUserId := nextUserId + 1;
      r := Ok(id);
    }

    // -------------------------------------------------------- notifications

    /** get_notifications: the caller's unread notifications, newest first. */
    function UnreadNotifications(s: Session): (r: Result<seq<Notification>>)
      reads this
      requires Valid()
      ensures r.Err? <==> !IsAuthenticated(users, s)
      ensures r.Err? ==> r.error == Redirected
      ensures r.Ok? ==> forall n :: n in r.value <==> n in notifications && n.userId == s.userId && !n.isRead
      ensures r.Ok? ==> IdsDecreasing(r.value)
    {
      if !IsAuthenticated(users, s) then Err(Redirected)
      else Ok(UnreadNewestFirst(notifications, s.userId))
    }

    /** mark_notification_read: only the addressee may mark it; marking twice changes nothing more. */
    method MarkNotificationRead(s: Session, id: nat) returns (r: Result<()>)
      requires Valid()
      modifies this
      ensures Valid()
      ensures r.Err? <==> old(MarkReadRefusal(users, notifications, s, id)).Some?
      ensures r.Err? ==> Some(r.error) == old(MarkReadRefusal(users, notifications, s, id)) && unchanged(this)
      ensures r.Ok? <==>
        old(IsAuthenticated(users, s)) &&
        exists k :: 0 <= k < |old(notifications)| && old(notifications)[k].id == id && old(notifications)[k].userId == s.userId
      ensures r == Err(Unauthorized) <==>
        old(IsAuthenticated(users, s)) &&
        exists k :: 0 <= k < |old(notifications)| && old(notifications)[k].id == id && old(notifications)[k].userId != s.userId
      ensures r.Ok? ==>
        var k := old(FindNotification(notifications, id)).value;
        && k < |old(notifications)| && old(notifications[k].userId) == s.userId
        && notifications == old(notifications)[k := old(notifications[k]).(isRead := true)]
        && (old(notifications[k].isRead) ==> notifications == old(notifications))
        && unchanged(this`users, this`photos, this`votes, this`comments, this`nextUserId, this`nextPhotoId)
    {
      assert IdsIncreasing(notifications);
      if !IsAuthenticated(users, s) { return Err(Redirected); }
      var found := FindNotification(notifications, id);
      if found.None? { return Err(NotFound); }
      var k := found.value;
      if notifications[k].userId != s.userId { return Err(Unauthorized); }
      notifications := notifications[k := notifications[k].(isRead := true)];
      r := Ok(());
    }

    /** clear_notifications: the caller's unread notifications become read, nobody else's change. */
    method ClearNotifications(s: Session) returns (r: Result<()>)
      requires Valid()
      modifies this
      ensures Valid()
      ensures r.Err? <==> !old(IsAuthenticated(users, s))
      ensures r.Err? ==> r.error == Redirected && unchanged(this)
      ensures r.Ok? ==>
        && notifications == MarkAllRead(old(notifications), s.userId)
        && UnreadNewestFirst(notifications, s.userId) == []
        && (forall other :: other != s.userId ==>
              UnreadNewestFirst(notifications, other) == UnreadNewestFirst(old(notifications), other))
        && unchanged(this`users, this`photos, this`votes, this`comments, this`nextUserId, this`nextPhotoId)
    {
      if !IsAuthenticated(users, s) { return Err(Redirected); }
      ghost var before := notifications;
      notifications := MarkAllRead(notifications, s.userId);
      ClearLeavesNothingUnread(before, s.userId);
      forall other | other != s.userId
        ensures UnreadNewestFirst(notifications, other) == UnreadNewestFirst(before, other)
      {
        ClearSparesOthers(before, s.userId, other);
      }
      r := Ok(());
    }

    // ------------------------------------------------------------- queries

    /** photo_detail. */
    function Detail(s: Session, photoId: PhotoId): (r: Result<Photo>)
      reads this
      ensures r.Ok? <==> (photoId in photos &&
                (photos[photoId].status == Approved ||
                 (IsAuthenticated(users, s) && (IsAdmin(users[s.userId].role) || s.userId == photos[photoId].owner))))
      ensures r.Err? ==> Err(r.error) == PhotoDetail(users, photos, s, photoId)
      ensures r == Err(NotFound) <==> photoId !in photos
      ensures r.Ok? ==> r.value == photos[photoId]
    {
      DetailVisibility(users, photos, s, photoId);
      PhotoDetail(users, photos, s, photoId)
    }

    /** home: at most eight approved photos, most votes first. */
    function Home(): (r: seq<PhotoId>)
      reads this
      requires Valid()
      ensures Ranking.IsRanking(photos, r, Ranking.HOME_LIMIT)
    {
      Ranking.TopIsRanking(photos, nextPhotoId, Ranking.HOME_LIMIT);
      Ranking.Top(photos, nextPhotoId, Ranking.HOME_LIMIT)
    }

    /** leaderboard and leaderboard_data: at most twenty approved photos, most votes first. */
    function Leaderboard(): (r: seq<PhotoId>)
      reads this
      requires Valid()
      ensures Ranking.IsRanking(photos, r, Ranking.LEADERBOARD_LIMIT)
    {
      Ranking.TopIsRanking(photos, nextPhotoId, Ranking.LEADERBOARD_LIMIT);
      Ranking.Top(photos, nextPhotoId, Ranking.LEADERBOARD_LIMIT)
    }

    /** previous_winners: the top three approved photos. */
    function PreviousWinners(): (r: seq<PhotoId>)
      reads this
      requires Valid()
      ensures Ranking.IsRanking(photos, r, Ranking.WINNERS_LIMIT)
    {
      Ranking.TopIsRanking(photos, nextPhotoId, Ranking.WINNERS_LIMIT);
      Ranking.Top(photos, nextPhotoId, Ranking.WINNERS_LIMIT)
    }
  }

  /**
   * An admin can take a photo round the whole cycle approve, reject,
   * revert, approve: every step succeeds and adds exactly one notification.
   */
  method ModerationCycle(c: Contest, admin: UserId, photoId: PhotoId)
    requires c.Valid() && admin in c.users && IsAdmin(c.users[admin].role) && photoId in c.photos
    modifies c
    ensures c.Valid() && photoId in c.photos && c.photos[photoId].status == Approved
    ensures |c.notifications| == old(|c.notifications|) + 4
    ensures c.votes == old(c.votes) && c.photos[photoId].votesCount == old(c.photos[photoId].votesCount)
  {
    var s := SignedIn(admin);
    var r := c.Moderate(s, photoId, Approve);
    assert r.Ok?;
    r := c.Moderate(s, photoId, Reject);
    assert r.Ok?;
    r := c.Moderate(s, photoId, Revert);
    assert r.Ok?;
    r := c.Moderate(s, photoId, Approve);
    assert r.Ok?;
  }
}
