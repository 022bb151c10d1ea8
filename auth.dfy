/**
 * The route guards of auth.py, and Flask-Login's login_required, as one
 * check: a guard either lets the wrapped handler run as the signed-in user
 * or redirects to the login page without running it.
 */
module Auth {

  import opened Models

  /** Who is making the request: nobody, or the id the session cookie names. */
  datatype Session = Anonymous | SignedIn(userId: UserId)

  datatype Guard = LoginRequired | AdminRequired | VoterRequired | ParticipantRequired

  /** What the guard decided: run the handler as this user, or redirect. */
  datatype Gate = Proceed(userId: UserId, role: string) | Redirect

  /** The role test each guard applies once the user is authenticated. */
  predicate RoleAdmits(guard: Guard, role: string) {
    match guard
    case LoginRequired => true
    case AdminRequired => IsAdmin(role)
    case VoterRequired => IsVoter(role)
    case ParticipantRequired => IsParticipant(role)
  }

  /** A session is authenticated only when its id names a stored user. */
  predicate IsAuthenticated(users: map<UserId, User>, s: Session) {
    s.SignedIn? && s.userId in users
  }

  function Check(guard: Guard, users: map<UserId, User>, s: Session): (g: Gate)
    ensures g.Proceed? <==> IsAuthenticated(users, s) && RoleAdmits(guard, users[s.userId].role)
    ensures g.Proceed? ==> g.userId == s.userId && g.role == users[s.userId].role
  {
    if !IsAuthenticated(users, s) || !RoleAdmits(guard, users[s.userId].role) then Redirect
    else Proceed(s.userId, users[s.userId].role)
  }

  /** Whatever admin_required or participant_required admits, voter_required and login_required admit too. */
  lemma GuardsNest(users: map<UserId, User>, s: Session)
    ensures Check(AdminRequired, users, s).Proceed? ==> Check(VoterRequired, users, s).Proceed?
    ensures Check(ParticipantRequired, users, s).Proceed? ==> Check(VoterRequired, users, s).Proceed?
    ensures Check(VoterRequired, users, s).Proceed? ==> Check(LoginRequired, users, s).Proceed?
  {
  }

  /**
   * participant_required never admits an admin, so a handler behind it that
   * also lets admins through (update_photo, edit_photo) only ever runs for
   * participants.
   */
  lemma ParticipantGuardExcludesAdmins(users: map<UserId, User>, s: Session)
    ensures Check(ParticipantRequired, users, s).Proceed? ==>
              !IsAdmin(Check(ParticipantRequired, users, s).role) &&
              Check(AdminRequired, users, s).Redirect?
  {
  }
}
