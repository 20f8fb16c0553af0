/** SessionManager: who is signed in. The Java class keeps this in static
    fields; here it is one object whose fields the methods update. */
module SessionManager {
  import opened Wrappers
  import opened JavaText

  /** The user id held while nobody is signed in. */
  const LOGGED_OUT_ID: int := -1
  const ADMIN_ROLE: string := "admin"
  const USER_ROLE: string := "user"

  /** "admin".equalsIgnoreCase(role): false for a null role. */
  predicate IsAdminRole(role: Option<string>) {
    role.Some? && EqualsIgnoreCase(ADMIN_ROLE, role.value)
  }

  /** "user".equalsIgnoreCase(role): false for a null role. */
  predicate IsUserRole(role: Option<string>) {
    role.Some? && EqualsIgnoreCase(USER_ROLE, role.value)
  }

  /** A role is admin when it spells "admin" in any mix of cases and user when
      it spells "user" so; no role is both, and no role at all is neither. */
  lemma RolesSpec(role: string)
    ensures IsAdminRole(Some(role)) <==> |role| == 5 && forall i :: 0 <= i < 5 ==>
      role[i] == ADMIN_ROLE[i] || role[i] == ToUpperChar(ADMIN_ROLE[i])
    ensures IsUserRole(Some(role)) <==> |role| == 4 && forall i :: 0 <= i < 4 ==>
      role[i] == USER_ROLE[i] || role[i] == ToUpperChar(USER_ROLE[i])
    ensures IsAdminRole(Some("ADMIN")) && IsUserRole(Some("User"))
    ensures !(IsAdminRole(Some(role)) && IsUserRole(Some(role)))
    ensures !IsAdminRole(None) && !IsUserRole(None)
  {
    EqualsIgnoreCaseAscii(ADMIN_ROLE, role);
    EqualsIgnoreCaseAscii(USER_ROLE, role);
    EqualsIgnoreCaseAscii(ADMIN_ROLE, "ADMIN");
    EqualsIgnoreCaseAscii(USER_ROLE, "User");
  }

  class Session {
    var currentUserId: int
    var currentUsername: Option<string>
    var currentRole: Option<string>

    /** isLoggedIn: a positive user id. */
    predicate IsLoggedIn()
      reads this
    {
      currentUserId > 0
    }

    predicate IsAdmin()
      reads this
    {
      IsAdminRole(currentRole)
    }

    predicate IsUser()
      reads this
    {
      IsUserRole(currentRole)
    }

    /** The static initial values: nobody is signed in. */
    constructor ()
      ensures currentUserId == LOGGED_OUT_ID && currentUsername == None && currentRole == None
      ensures !IsLoggedIn() && !IsAdmin() && !IsUser()
    {
      currentUserId := LOGGED_OUT_ID;
      currentUsername := None;
      currentRole := None;
    }

    /** login: stores the three values as given, without checking them. */
    method Login(userId: int, username: Option<string>, role: Option<string>)
      modifies this
      ensures currentUserId == userId && currentUsername == username && currentRole == role
      ensures IsLoggedIn() <==> userId > 0
      ensures !(IsAdmin() && IsUser())
    {
      currentUserId := userId;
      currentUsername := username;
      currentRole := role;
      if role.Some? {
        RolesSpec(role.value);
      }
    }

    /** logout: back to the initial values. */
    method Logout()
      modifies this
      ensures currentUserId == LOGGED_OUT_ID && currentUsername == None && currentRole == None
      ensures !IsLoggedIn() && !IsAdmin() && !IsUser()
    {
      currentUserId := LOGGED_OUT_ID;
      currentUsername := None;
      currentRole := None;
    }

    /** setUsername: only the name changes. */
    method SetUsername(username: Option<string>)
      modifies this
      ensures currentUsername == username
      ensures currentUserId == old(currentUserId) && currentRole == old(currentRole)
    {
      currentUsername := username;
    }
  }
}
