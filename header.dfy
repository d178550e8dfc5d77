/** The layout header: it keeps the selected view role and shows the role
    selector to owners and admins. The header calls `useRBAC()` itself, so
    its access checks are those of a hook instance of its own. */
module Header {
  import opened Wrappers
  import Rbac
  import RoleSelector

  class HeaderState {
    var selectedRole: Rbac.Role

    /** The state initialiser runs at the first render only. The header's
        own hook is still loading then, so `isAdmin()` answers no and the
        selection starts on owner whoever signs in. */
    constructor(first: Rbac.AccessView)
      requires first.loading
      ensures selectedRole == Rbac.Owner
    {
      selectedRole := if Rbac.IsAdmin(first) then Rbac.Admin else Rbac.Owner;
    }

    /** `handleRoleChange`. */
    method HandleRoleChange(role: Rbac.Role)
      modifies this
      ensures selectedRole == role
    {
      selectedRole := role;
    }

    /** A later render: whether the selector is shown and which buttons it
        has. The selected role stays whatever it was, even after the access
        checks have settled. */
    method Render(v: Rbac.AccessView) returns (shown: bool, buttons: Option<seq<RoleSelector.Button>>)
      ensures shown <==> Rbac.IsAdmin(v) || Rbac.IsOwner(v)
      ensures buttons == (if shown then RoleSelector.Buttons(v, selectedRole) else None)
      ensures buttons.Some? ==> forall i :: 0 <= i < |buttons.value| ==>
        (buttons.value[i].highlighted <==> buttons.value[i].role == selectedRole)
    {
      shown := Rbac.IsAdmin(v) || Rbac.IsOwner(v);
      buttons := if shown then RoleSelector.Buttons(v, selectedRole) else None;
    }
  }

  /** An approved admin's selector shows the admin button unhighlighted
      until it is clicked: the selection started on owner while the
      header's access checks were loading. */
  method AdminStartsUnselected(first: Rbac.AccessView, later: Rbac.AccessView)
    returns (before: Option<seq<RoleSelector.Button>>, after: Option<seq<RoleSelector.Button>>)
    requires first.loading && Rbac.IsAdmin(later)
    ensures before == Some([RoleSelector.Button(Rbac.Admin, false)])
    ensures after == Some([RoleSelector.Button(Rbac.Admin, true)])
  {
    var h := new HeaderState(first);
    var shown;
    shown, before := h.Render(later);
    RoleSelector.OneButton(later, Rbac.Owner);
    assert RoleSelector.Button(Rbac.Admin, false) in before.value;
    assert before.value == [before.value[0]];
    h.HandleRoleChange(Rbac.Admin);
    shown, after := h.Render(later);
    RoleSelector.ClickHighlightsButton(later, Rbac.Owner, RoleSelector.Button(Rbac.Admin, false));
  }
}
