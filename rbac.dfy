/** The `useRBAC` hook: it resolves the signed-in user's role and admin
    approval from the profile row, loads the permissions of the stored
    role, retries up to three times with growing waits, and fails closed.
    The database is an input: `profileReads(i)` is the profile read of
    attempt `i` and `permissionReads(i, role)` the permissions read that
    follows it. The signed-in user comes from a hook that is not part of
    this model and is an input too. */
module Rbac {
  import opened Wrappers
  import Supabase

  datatype Role = Owner | Admin

  datatype Permission = Permission(resource: string, action: string)

  /** The profile columns the hook reads (`role`, `is_admin`). */
  datatype Profile = Profile(role: Role, isAdmin: bool)

  /** A profile read: an error, no row and no error, or a row. */
  datatype ProfileRead = ProfileFailed | ProfileMissing | ProfileFound(profile: Profile)

  /** A permissions read: an error, or rows (`None` for a null result). */
  datatype PermissionsRead = PermissionsFailed | Rows(rows: Option<seq<Permission>>)

  const LoadFailure := "Failed to load permissions. Please refresh the page."

  /** The number of attempts before the hook gives up. */
  const MaxAttempts := 3

  /** What one pass of the loop body does with its two reads. */
  datatype Step = Loaded(profile: Profile, permissions: seq<Permission>) | Failed | NoProgress

  function Classify(p: ProfileRead, perms: Role -> PermissionsRead): (s: Step)
    ensures s.NoProgress? <==> p.ProfileMissing?
    ensures s.Failed? <==> p.ProfileFailed? || (p.ProfileFound? && perms(p.profile.role).PermissionsFailed?)
    ensures s.Loaded? ==> s.profile == p.profile && s.permissions == perms(p.profile.role).rows.GetOr([])
  {
    match p
    case ProfileFailed => Failed
    case ProfileMissing => NoProgress
    case ProfileFound(profile) =>
      match perms(profile.role)
      case PermissionsFailed => Failed
      case Rows(rows) => Loaded(profile, rows.GetOr([]))
  }

  /** The step of attempt `i`: the permissions read asks for the
      profile's stored role. */
  function StepAt(profileReads: nat -> ProfileRead, permissionReads: (nat, Role) -> PermissionsRead, i: nat): Step {
    Classify(profileReads(i), r => permissionReads(i, r))
  }

  /** The first attempt from `k` on, below the limit, that loads. */
  function FirstLoaded(profileReads: nat -> ProfileRead, permissionReads: (nat, Role) -> PermissionsRead, k: nat): (r: Option<nat>)
    ensures r.Some? ==> k <= r.value < MaxAttempts && StepAt(profileReads, permissionReads, r.value).Loaded?
    ensures r.Some? ==> forall j :: k <= j < r.value ==> !StepAt(profileReads, permissionReads, j).Loaded?
    ensures r.None? ==> forall j :: k <= j < MaxAttempts ==> !StepAt(profileReads, permissionReads, j).Loaded?
    decreases MaxAttempts - k
  {
    if k >= MaxAttempts then None
    else if StepAt(profileReads, permissionReads, k).Loaded? then Some(k)
    else FirstLoaded(profileReads, permissionReads, k + 1)
  }

  /** The waits after the first `n` failures: `2^(3 - retries) * 1000` ms. */
  function Waits(n: nat): (w: seq<nat>)
    ensures |w| == n
    ensures forall i :: 0 <= i < n ==> w[i] == Supabase.Pow2(i + 1) * 1000
  {
    seq(n, i requires 0 <= i < n => Supabase.Pow2(i + 1) * 1000)
  }

  /** Each failure adds the next, doubled, wait. */
  lemma WaitsSnoc(n: nat)
    ensures Waits(n + 1) == Waits(n) + [Supabase.Pow2(n + 1) * 1000]
  {
    assert Waits(n + 1)[..n] == Waits(n);
  }

  lemma WaitsValues()
    ensures Waits(2) == [2000, 4000]
  {
  }

  /** The state the hook exposes, as the access checks see it. */
  datatype AccessView = AccessView(
    signedIn: bool,
    loading: bool,
    error: Option<string>,
    role: Option<Role>,
    approved: bool,
    permissions: seq<Permission>)
  {
    /** The guard every check starts with: no user, loading, or an error. */
    predicate Denies() {
      !signedIn || loading || error.Some?
    }
  }

  /** `permissions.some(p => p.action === action && p.resource === resource)`. */
  function AnyGrant(ps: seq<Permission>, action: string, resource: string): (b: bool)
    ensures b <==> exists i :: 0 <= i < |ps| && ps[i] == Permission(resource, action)
  {
    if ps == [] then false
    else ps[0] == Permission(resource, action) || AnyGrant(ps[1..], action, resource)
  }

  /** `can(action, resource)`. */
  function Can(v: AccessView, action: string, resource: string): (b: bool)
    ensures b <==> !v.Denies() && exists i :: 0 <= i < |v.permissions| && v.permissions[i] == Permission(resource, action)
  {
    !v.Denies() && AnyGrant(v.permissions, action, resource)
  }

  /** `isAdmin()`. */
  function IsAdmin(v: AccessView): (b: bool)
    ensures b ==> v.approved
  {
    !v.Denies() && v.role == Some(Admin) && v.approved
  }

  /** `isOwner()`. */
  function IsOwner(v: AccessView): (b: bool)
    ensures b ==> v.role == Some(Owner)
  {
    !v.Denies() && v.role == Some(Owner)
  }

  /** Every check answers no while loading, after an error, or signed out. */
  lemma DenialIsTotal(v: AccessView, action: string, resource: string)
    requires v.Denies()
    ensures !Can(v, action, resource) && !IsAdmin(v) && !IsOwner(v)
  {
  }

  /** No state is both admin and owner. */
  lemma AdminOwnerExclusive(v: AccessView)
    ensures !(IsAdmin(v) && IsOwner(v))
  {
  }

  /** The hook's state. */
  class RbacHook {
    var user: Option<string>
    var permissions: seq<Permission>
    var loading: bool
    var userRole: Option<Role>
    var isAdminApproved: bool
    var error: Option<string>
    /** The back-off waits taken so far, in milliseconds. */
    var waits: seq<nat>

    function View(): AccessView
      reads this
    {
      AccessView(user.Some?, loading, error, userRole, isAdminApproved, permissions)
    }

    /** The state after attempt `k` loaded: the role (an approved admin
        acts as admin), the approval and the permissions of the stored
        role. */
    predicate LoadedFrom(profileReads: nat -> ProfileRead, permissionReads: (nat, Role) -> PermissionsRead, k: nat)
      reads this
    {
      && profileReads(k).ProfileFound?
      && var p := profileReads(k).profile;
      && userRole == Some(if p.isAdmin then Admin else p.role)
      && isAdminApproved == p.isAdmin
      && permissionReads(k, p.role).Rows?
      && permissions == permissionReads(k, p.role).rows.GetOr([])
    }

    /** Nothing granted: no permissions, no role, no approval. */
    predicate Cleared()
      reads this
    {
      permissions == [] && userRole.None? && !isAdminApproved
    }

    /** The initial state: loading, nothing granted. */
    constructor(user: Option<string>)
      ensures this.user == user && permissions == [] && loading && userRole.None?
      ensures !isAdminApproved && error.None? && waits == []
    {
      this.user := user;
      permissions := [];
      loading := true;
      userRole := None;
      isAdminApproved := false;
      error := None;
      waits := [];
    }

    /** One pass of the loop body: the error is cleared, the profile read,
        and on success the permissions of its stored role. */
    method Attempt(profileReads: nat -> ProfileRead, permissionReads: (nat, Role) -> PermissionsRead, attempt: nat)
      returns (failed: bool, loaded: bool)
      requires !profileReads(attempt).ProfileMissing?
      modifies this
      ensures failed <==> StepAt(profileReads, permissionReads, attempt).Failed?
      ensures loaded <==> StepAt(profileReads, permissionReads, attempt).Loaded?
      ensures loaded ==> LoadedFrom(profileReads, permissionReads, attempt)
      ensures !loaded ==> permissions == old(permissions)
      ensures profileReads(attempt).ProfileFound? ==>
        var p := profileReads(attempt).profile;
        userRole == Some(if p.isAdmin then Admin else p.role) && isAdminApproved == p.isAdmin
      ensures profileReads(attempt).ProfileFailed? ==>
        userRole == old(userRole) && isAdminApproved == old(isAdminApproved)
      ensures error.None? && user == old(user) && loading == old(loading) && waits == old(waits)
    {
      error := None;
      failed, loaded := false, false;
      match profileReads(attempt) {
        case ProfileMissing =>
          assert false;
        case ProfileFailed =>
          failed := true;
        case ProfileFound(p) =>
          userRole := Some(if p.isAdmin then Admin else p.role);
          isAdminApproved := p.isAdmin;
          match permissionReads(attempt, p.role) {
            case PermissionsFailed =>
              failed := true;
            case Rows(rows) =>
              permissions := rows.GetOr([]);
              loaded := true;
          }
      }
    }

    /** `loadPermissions`. A read with neither data nor an error makes the
        loop run again without counting an attempt, so those are excluded. */
    method LoadPermissions(profileReads: nat -> ProfileRead, permissionReads: (nat, Role) -> PermissionsRead)
      requires forall i :: 0 <= i < MaxAttempts ==> !profileReads(i).ProfileMissing?
      modifies this
      ensures user == old(user) && !loading
      ensures user.None? ==> Cleared() && error == old(error) && waits == old(waits)
      ensures user.Some? ==>
        match FirstLoaded(profileReads, permissionReads, 0)
        case Some(k) =>
          LoadedFrom(profileReads, permissionReads, k) && error.None? && waits == old(waits) + Waits(k)
        case None =>
          Cleared() && error == Some(LoadFailure) && waits == old(waits) + Waits(MaxAttempts - 1)
    {
      if user.None? {
        permissions := [];
        userRole := None;
        isAdminApproved := false;
        loading := false;
        return;
      }
      var retries := MaxAttempts;
      var attempt: nat := 0;
      var done := false;
      while retries > 0 && !done
        invariant 0 <= retries <= MaxAttempts && attempt == MaxAttempts - retries
        invariant user == old(user) && user.Some?
        invariant FirstLoaded(profileReads, permissionReads, 0) == FirstLoaded(profileReads, permissionReads, attempt)
        invariant !done && retries > 0 ==> waits == old(waits) + Waits(attempt)
        invariant !done && retries == 0 ==> Cleared() && error == Some(LoadFailure) && waits == old(waits) + Waits(MaxAttempts - 1)
        invariant done ==> attempt < MaxAttempts && waits == old(waits) + Waits(attempt) && error.None?
        invariant done ==> StepAt(profileReads, permissionReads, attempt).Loaded?
        invariant done ==> LoadedFrom(profileReads, permissionReads, attempt)
        decreases retries, if done then 0 else 1
      {
        var failed;
        failed, done := Attempt(profileReads, permissionReads, attempt);
        if failed {
          retries := Backoff(retries, old(waits));
          attempt := attempt + 1;
        }
      }
      loading := false;
    }

    /** A failed attempt uses up a retry: the last one clears the grants
        and shows the failure, the others wait `2^(3 - retries)` seconds. */
    method Backoff(retries: nat, ghost before: seq<nat>) returns (left: nat)
      requires 0 < retries <= MaxAttempts
      requires waits == before + Waits(MaxAttempts - retries)
      modifies this
      ensures left == retries - 1
      ensures left == 0 ==> Cleared() && error == Some(LoadFailure) && waits == old(waits)
      ensures left > 0 ==> waits == before + Waits(MaxAttempts - left)
      ensures left > 0 ==> permissions == old(permissions) && userRole == old(userRole)
                           && isAdminApproved == old(isAdminApproved) && error == old(error)
      ensures user == old(user) && loading == old(loading)
    {
      left := retries - 1;
      if left == 0 {
        error := Some(LoadFailure);
        permissions := [];
        userRole := None;
        isAdminApproved := false;
      } else {
        WaitsSnoc(MaxAttempts - retries);
        waits := waits + [Supabase.Pow2(MaxAttempts - left) * 1000];
      }
    }
  }

  /** After a successful load `isAdmin()` is exactly the profile's
      `is_admin`, and `isOwner()` exactly "stored role owner and not admin". */
  lemma LoadedFlags(p: Profile, perms: seq<Permission>)
    ensures var v := AccessView(true, false, None, Some(if p.isAdmin then Admin else p.role), p.isAdmin, perms);
      (IsAdmin(v) <==> p.isAdmin) && (IsOwner(v) <==> p.role == Owner && !p.isAdmin)
  {
  }

  /** Permissions follow the stored role, not the derived one: an admin
      whose stored role is owner is granted the owner's permissions. */
  lemma PermissionsFollowStoredRole(profileReads: nat -> ProfileRead, permissionReads: (nat, Role) -> PermissionsRead)
    requires profileReads(0) == ProfileFound(Profile(Owner, true))
    requires permissionReads(0, Owner) == Rows(Some([Permission("properties", "read")]))
    ensures StepAt(profileReads, permissionReads, 0) == Loaded(Profile(Owner, true), [Permission("properties", "read")])
    ensures FirstLoaded(profileReads, permissionReads, 0) == Some(0)
  {
  }
}
