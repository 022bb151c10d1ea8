/**
 * The records of the contest database (models.py): users and their roles,
 * photos, votes, comments and notifications, with the column defaults, the
 * one-vote-per-pair constraint and the cascade from a photo to its votes
 * and comments.
 */
module Models {

  type UserId = nat
  type PhotoId = nat

  // ---------------------------------------------------------------- users

  /** The role column is a free string; these are the three names the code tests. */
  const ADMIN: string := "admin"
  const VOTER: string := "voter"
  const PARTICIPANT: string := "participant"

  datatype User = User(email: string, username: string, role: string)

  predicate IsAdmin(role: string) {
    role == ADMIN
  }

  /** Every one of the three known roles may vote; any other string may not. */
  predicate IsVoter(role: string) {
    role == VOTER || role == PARTICIPANT || role == ADMIN
  }

  predicate IsParticipant(role: string) {
    role == PARTICIPANT
  }

  /** The voting capability overlaps the other two roles; admin and participant exclude each other. */
  lemma RoleHierarchy(role: string)
    ensures IsAdmin(role) ==> IsVoter(role) && !IsParticipant(role)
    ensures IsParticipant(role) ==> IsVoter(role) && !IsAdmin(role)
    ensures IsVoter(role) <==> role in {VOTER, PARTICIPANT, ADMIN}
  {
  }

  /** The UNIQUE column on email: no two stored users share one. */
  ghost predicate UniqueEmails(users: map<UserId, User>) {
    forall a, b :: a in users && b in users && a != b ==> users[a].email != users[b].email
  }

  // --------------------------------------------------------------- photos

  datatype Status = Pending | Approved | Rejected

  datatype Photo = Photo(owner: UserId, title: string, description: string, status: Status, votesCount: nat)

  /** A freshly inserted photo row: the status and vote-count column defaults. */
  function NewPhoto(owner: UserId, title: string, description: string): (p: Photo)
    ensures p.status == Pending && p.votesCount == 0
    ensures p.owner == owner && p.title == title && p.description == description
  {
    Photo(owner, title, description, Pending, 0)
  }

  /** The cached count of a photo, 0 for an id that names no photo. */
  function Votes(photos: map<PhotoId, Photo>, id: PhotoId): nat {
    if id in photos then photos[id].votesCount else 0
  }

  // ---------------------------------------------------------------- votes

  datatype Vote = Vote(userId: UserId, photoId: PhotoId)

  /** The UNIQUE(user_id, photo_id) constraint on the vote table. */
  predicate UniqueVotes(votes: seq<Vote>) {
    forall i, j :: 0 <= i < j < |votes| ==> votes[i] != votes[j]
  }

  /** The number of vote rows for one photo. */
  function VotesFor(votes: seq<Vote>, p: PhotoId): nat {
    if votes == [] then 0
    else VotesFor(votes[..|votes| - 1], p) + (if votes[|votes| - 1].photoId == p then 1 else 0)
  }

  /** Inserting one row raises its own photo's count by one and no other photo's. */
  lemma VotesForAppend(votes: seq<Vote>, v: Vote, p: PhotoId)
    ensures VotesFor(votes + [v], p) == VotesFor(votes, p) + (if v.photoId == p then 1 else 0)
  {
    assert (votes + [v])[..|votes|] == votes;
  }

  /** A photo that no row names has a count of zero. */
  lemma {:induction false} VotesForAbsent(votes: seq<Vote>, p: PhotoId)
    requires forall v :: v in votes ==> v.photoId != p
    ensures VotesFor(votes, p) == 0
  {
    if votes != [] {
      assert forall v :: v in votes[..|votes| - 1] ==> v in votes;
      VotesForAbsent(votes[..|votes| - 1], p);
    }
  }

  // ------------------------------------------------------------- comments

  /** Only Active is ever written; the other two are reserved by the schema. */
  datatype CommentStatus = Active | Flagged | Removed

  datatype Comment = Comment(authorId: UserId, photoId: PhotoId, content: string, status: CommentStatus)

  /** A freshly inserted comment row: the status column defaults to active. */
  function NewComment(authorId: UserId, photoId: PhotoId, content: string): (c: Comment)
    ensures c.status == Active
    ensures c.authorId == authorId && c.photoId == photoId && c.content == content
  {
    Comment(authorId, photoId, content, Active)
  }

  // -------------------------------------------------------- notifications

  /** The id stands for created_at as well: both grow with every insert. */
  datatype Notification = Notification(id: nat, userId: UserId, message: string, isRead: bool)

  /** A freshly inserted notification row: is_read defaults to false. */
  function NewNotification(id: nat, userId: UserId, message: string): (n: Notification)
    ensures !n.isRead
    ensures n.id == id && n.userId == userId && n.message == message
  {
    Notification(id, userId, message, false)
  }

  // --------------------------------------------------------------- cascade

  /** The rows of a table that survive the deletion of one photo. */
  function VotesWithout(votes: seq<Vote>, p: PhotoId): (r: seq<Vote>)
    ensures forall v :: v in r <==> v in votes && v.photoId != p
    ensures UniqueVotes(votes) ==> UniqueVotes(r)
    ensures forall q :: q != p ==> VotesFor(r, q) == VotesFor(votes, q)
  {
    if votes == [] then []
    else
      var init, last := votes[..|votes| - 1], votes[|votes| - 1];
      assert votes == init + [last];
      var rest := VotesWithout(init, p);
      assert UniqueVotes(votes) ==> UniqueVotes(init) && last !in init by {
        if UniqueVotes(votes) {
          forall k | 0 <= k < |init| ensures init[k] != last { assert votes[k] == init[k]; }
        }
      }
      forall q | q != p ensures VotesFor(rest + [last], q) == VotesFor(votes, q) {
        VotesForAppend(rest, last, q);
      }
      VotesForAppend(rest, last, p);
      if last.photoId == p then rest else rest + [last]
  }

  function CommentsWithout(comments: seq<Comment>, p: PhotoId): (r: seq<Comment>)
    ensures forall c :: c in r <==> c in comments && c.photoId != p
    ensures forall c :: multiset(r)[c] == if c.photoId == p then 0 else multiset(comments)[c]
  {
    if comments == [] then []
    else
      var rest := CommentsWithout(comments[1..], p);
      assert comments == [comments[0]] + comments[1..];
      assert forall c :: c in comments <==> c == comments[0] || c in comments[1..];
      if comments[0].photoId == p then rest else [comments[0]] + rest
  }

  /** Concatenation of comment tables associates. */
  lemma AppendAssociates(x: seq<Comment>, y: seq<Comment>, z: seq<Comment>)
    ensures x + (y + z) == (x + y) + z
  {
  }

  /** One step of the cascade filter: the first comment survives unless it is on the deleted photo. */
  lemma CommentsWithoutStep(comments: seq<Comment>, p: PhotoId)
    requires comments != []
    ensures CommentsWithout(comments, p)
            == (if comments[0].photoId == p then [] else [comments[0]]) + CommentsWithout(comments[1..], p)
  {
  }

  /** The cascade keeps the surviving comments in their order: it filters each part of the table separately. */
  lemma {:induction false} CommentsWithoutAppend(a: seq<Comment>, b: seq<Comment>, p: PhotoId)
    ensures CommentsWithout(a + b, p) == CommentsWithout(a, p) + CommentsWithout(b, p)
  {
    if a == [] {
      assert a + b == b;
    } else {
      var ab := a + b;
      assert ab[0] == a[0] && ab[1..] == a[1..] + b;
      CommentsWithoutAppend(a[1..], b, p);
      CommentsWithoutStep(ab, p);
      CommentsWithoutStep(a, p);
      AppendAssociates(if a[0].photoId == p then [] else [a[0]], CommentsWithout(a[1..], p), CommentsWithout(b, p));
    }
  }

}
