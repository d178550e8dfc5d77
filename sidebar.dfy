/** The layout sidebar: a loading skeleton, or the menu whose items depend
    on the access checks. */
module Sidebar {
  import Rbac

  datatype MenuItem = MenuItem(caption: string, to: string)

  datatype View = Skeleton | Menu(items: seq<MenuItem>)

  const AdminItems: seq<MenuItem> := [
    MenuItem("Property Management", "/admin"), MenuItem("Lead Management", "/leads"),
    MenuItem("Transactions", "/transactions"), MenuItem("WhatsApp", "/whatsapp")]

  /** The sidebar for the hook state `v`. */
  function Render(v: Rbac.AccessView): (r: View)
    ensures r.Skeleton? <==> v.loading
  {
    if v.loading then Skeleton
    else Menu(
      [MenuItem("Overview", "/"), MenuItem("Accounting", "/accounting"), MenuItem("Analytics", "/analytics")]
      + (if Rbac.IsOwner(v) then [MenuItem("Properties", "/properties")] else [])
      + [MenuItem("Help", "/help")]
      + (if Rbac.IsAdmin(v) && v.approved then AdminItems else []))
  }

  /** Whether the menu links to `to`. */
  predicate Links(r: View, to: string) {
    r.Menu? && exists i :: 0 <= i < |r.items| && r.items[i].to == to
  }

  /** Overview, Accounting, Analytics and Help are always there, in that order. */
  lemma CommonItems(v: Rbac.AccessView)
    requires !v.loading
    ensures var r := Render(v);
      r.items[..3] == [MenuItem("Overview", "/"), MenuItem("Accounting", "/accounting"), MenuItem("Analytics", "/analytics")]
      && MenuItem("Help", "/help") in r.items
  {
  }

  /** The Properties link appears exactly for an owner. */
  lemma PropertiesIffOwner(v: Rbac.AccessView)
    requires !v.loading
    ensures Links(Render(v), "/properties") <==> Rbac.IsOwner(v)
  {
    var r := Render(v);
    if Rbac.IsOwner(v) {
      assert r.items[3].to == "/properties";
    }
  }

  /** The admin section appears exactly for an approved admin, and it is
      the four administration links in order at the end of the menu. */
  lemma AdminSectionIffApprovedAdmin(v: Rbac.AccessView)
    requires !v.loading
    ensures var r := Render(v);
      (Rbac.IsAdmin(v) && v.approved <==> Links(r, "/admin"))
      && (Rbac.IsAdmin(v) && v.approved ==> r.items[|r.items| - 4..] == AdminItems)
  {
    var r := Render(v);
    if Rbac.IsAdmin(v) && v.approved {
      assert r.items[|r.items| - 4] == AdminItems[0];
    }
  }

  /** An approved admin has no Properties link, although the route is
      registered for admins. */
  lemma AdminHasNoPropertiesLink(v: Rbac.AccessView)
    requires !v.loading && Rbac.IsAdmin(v)
    ensures !Links(Render(v), "/properties")
  {
    PropertiesIffOwner(v);
    Rbac.AdminOwnerExclusive(v);
  }
}
