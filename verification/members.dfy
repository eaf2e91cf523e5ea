/** Administrator accounts. The username is the identity and never changes;
    role, enabled flag and (encoded) password are updated in place. */
module Members {
  import opened Domain

  /** The mutable part of a member, as a value. */
  datatype Account = Account(password: string, role: Role, enabled: bool)

  /** Member.update(role, enabled): a null argument keeps the current value,
      a non-null one overwrites it. */
  function ApplyUpdate(a: Account, role: Option<Role>, enabled: Option<bool>): (r: Account)
    ensures r.password == a.password
    ensures r.role == (if role.Some? then role.value else a.role)
    ensures r.enabled == (if enabled.Some? then enabled.value else a.enabled)
  {
    var withRole := if role.Some? then a.(role := role.value) else a;
    if enabled.Some? then withRole.(enabled := enabled.value) else withRole
  }

  /** An update with two nulls changes nothing; updates are idempotent; the two
      arguments act independently of each other. */
  lemma ApplyUpdateLaws(a: Account, role: Option<Role>, enabled: Option<bool>)
    ensures ApplyUpdate(a, None, None) == a
    ensures ApplyUpdate(ApplyUpdate(a, role, enabled), role, enabled) == ApplyUpdate(a, role, enabled)
    ensures ApplyUpdate(a, role, enabled) == ApplyUpdate(ApplyUpdate(a, role, None), None, enabled)
    ensures ApplyUpdate(a, role, enabled) == ApplyUpdate(ApplyUpdate(a, None, enabled), role, None)
  {
  }

  class Member {
    const username: string
    var password: string
    var role: Role
    var enabled: bool

    function AccountState(): Account
      reads this
    {
      Account(password, role, enabled)
    }

    constructor (username: string, password: string, role: Role, enabled: bool)
      ensures this.username == username && AccountState() == Account(password, role, enabled)
    {
      this.username := username;
      this.password := password;
      this.role := role;
      this.enabled := enabled;
    }

    /** Member.update. */
    method Update(newRole: Option<Role>, newEnabled: Option<bool>)
      modifies this
      ensures AccountState() == ApplyUpdate(old(AccountState()), newRole, newEnabled)
    {
      if newRole.Some? {
        role := newRole.value;
      }
      if newEnabled.Some? {
        enabled := newEnabled.value;
      }
    }

    /** Member.updatePassword: only the password changes. */
    method UpdatePassword(newPassword: string)
      modifies this
      ensures AccountState() == old(AccountState()).(password := newPassword)
    {
      password := newPassword;
    }
  }

  /** findByRole(ROLE_ADMIN) followed by the enabled check of both fan-outs:
      the usernames of the enabled administrators, in repository order. */
  function EnabledAdmins(ms: seq<Member>): (r: seq<string>)
    reads set m | m in ms
    ensures |r| <= |ms|
  {
    if ms == [] then []
    else
      var m := ms[|ms| - 1];
      EnabledAdmins(ms[..|ms| - 1]) + (if m.role == ROLE_ADMIN && m.enabled then [m.username] else [])
  }

  /** The list holds exactly the usernames of the members that are enabled
      administrators. */
  lemma {:induction false} EnabledAdminsSpec(ms: seq<Member>)
    ensures forall u :: u in EnabledAdmins(ms) <==>
              exists i :: 0 <= i < |ms| && ms[i].username == u && ms[i].role == ROLE_ADMIN && ms[i].enabled
  {
    if ms != [] {
      var front := ms[..|ms| - 1];
      EnabledAdminsSpec(front);
      assert forall i :: 0 <= i < |front| ==> front[i] == ms[i];
    }
  }

  /** Scanning one more member adds that member's username exactly when it is
      an enabled administrator. */
  lemma EnabledAdminsSteps(ms: seq<Member>)
    ensures forall i :: 0 <= i < |ms| ==>
              EnabledAdmins(ms[..i + 1])
              == EnabledAdmins(ms[..i]) + (if ms[i].role == ROLE_ADMIN && ms[i].enabled then [ms[i].username] else [])
  {
    forall i | 0 <= i < |ms|
      ensures EnabledAdmins(ms[..i + 1])
              == EnabledAdmins(ms[..i]) + (if ms[i].role == ROLE_ADMIN && ms[i].enabled then [ms[i].username] else [])
    {
      assert ms[..i + 1][..i] == ms[..i];
    }
  }

  /** With unique usernames every enabled administrator is listed exactly once. */
  lemma {:induction false} EnabledAdminsOnce(ms: seq<Member>)
    requires forall i, j :: 0 <= i < j < |ms| ==> ms[i].username != ms[j].username
    ensures forall i, j :: 0 <= i < j < |EnabledAdmins(ms)| ==> EnabledAdmins(ms)[i] != EnabledAdmins(ms)[j]
  {
    if ms != [] {
      var front := ms[..|ms| - 1];
      EnabledAdminsOnce(front);
      EnabledAdminsSpec(front);
      assert forall i :: 0 <= i < |front| ==> front[i].username != ms[|ms| - 1].username;
      var a := EnabledAdmins(front);
      var m := ms[|ms| - 1];
      assert m.username !in a;
      if m.role == ROLE_ADMIN && m.enabled {
        assert EnabledAdmins(ms) == a + [m.username];
      } else {
        assert EnabledAdmins(ms) == a;
      }
    }
  }

  /** The position of the member with that username, if any. */
  function PositionOf(ms: seq<Member>, username: string): (r: Option<nat>)
    ensures r.Some? ==> r.value < |ms| && ms[r.value].username == username
    ensures r.None? ==> forall m :: m in ms ==> m.username != username
  {
    if ms == [] then None
    else if ms[0].username == username then Some(0)
    else match PositionOf(ms[1..], username)
      case None => None
      case Some(k) => Some(k + 1)
  }
}
