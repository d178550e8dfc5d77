/** `RoleSelector`: the owner and admin buttons shown in the header. */
module RoleSelector {
  import opened Wrappers
  import Rbac

  /** A button: the role it passes to `onRoleChange` and whether it is highlighted. */
  datatype Button = Button(role: Rbac.Role, highlighted: bool)

  /** The rendered buttons, or `None` when the component renders nothing. */
  function Buttons(v: Rbac.AccessView, selected: Rbac.Role): (r: Option<seq<Button>>)
    ensures r.None? <==> !Rbac.IsAdmin(v) && !Rbac.IsOwner(v)
    ensures r.Some? ==> forall i :: 0 <= i < |r.value| ==> (r.value[i].highlighted <==> r.value[i].role == selected)
    ensures r.Some? ==> (Button(Rbac.Owner, selected == Rbac.Owner) in r.value <==> Rbac.IsOwner(v))
    ensures r.Some? ==> (Button(Rbac.Admin, selected == Rbac.Admin) in r.value <==> Rbac.IsAdmin(v))
  {
    if !Rbac.IsAdmin(v) && !Rbac.IsOwner(v) then None
    else Some(
      (if Rbac.IsOwner(v) then [Button(Rbac.Owner, selected == Rbac.Owner)] else [])
      + (if Rbac.IsAdmin(v) then [Button(Rbac.Admin, selected == Rbac.Admin)] else []))
  }

  /** A rendered selector has exactly one button, since a user is never
      both owner and admin. */
  lemma OneButton(v: Rbac.AccessView, selected: Rbac.Role)
    requires Buttons(v, selected).Some?
    ensures |Buttons(v, selected).value| == 1
  {
    Rbac.AdminOwnerExclusive(v);
  }

  /** A button passes its own role to `onRoleChange`; once that role is
      selected, the selector shows that button, alone and highlighted. */
  lemma ClickHighlightsButton(v: Rbac.AccessView, selected: Rbac.Role, b: Button)
    requires Buttons(v, selected).Some? && b in Buttons(v, selected).value
    ensures Buttons(v, b.role) == Some([Button(b.role, true)])
  {
    var r := Buttons(v, b.role).value;
    OneButton(v, b.role);
    assert b == Button(b.role, b.role == selected);
    assert Button(b.role, true) in r;
    assert r == [r[0]];
  }
}
