/** The dashboard frame (DashboardLayout): the role read from the address,
    the sidebar configuration chosen for it, and the collapsible sidebar. */
module DashboardLayout {
  import opened Text

  datatype Role = Admin | Therapist

  /** No address starts with both '/admin' and '/therapist'. */
  lemma PrefixesExclusive(path: string)
    ensures !(StartsWith(path, "/admin") && StartsWith(path, "/therapist"))
  {
    if StartsWith(path, "/therapist") {
      assert path[1] == "/therapist"[1];
    }
  }

  /** getRoleFromPath: '/admin…' is admin, '/therapist…' therapist, and any
      other address falls back to admin; so the therapist role belongs to
      exactly the '/therapist' addresses. */
  function RoleFromPath(path: string): (r: Role)
    ensures StartsWith(path, "/admin") ==> r == Admin
    ensures r == Therapist <==> StartsWith(path, "/therapist")
  {
    PrefixesExclusive(path);
    if StartsWith(path, "/admin") then Admin
    else if StartsWith(path, "/therapist") then Therapist
    else Admin
  }

  datatype SidebarConfig = TherapistSidebar | AdminSidebar

  /** currentConfig: the therapist sidebar for the therapist role only. */
  function ConfigFor(role: Role): (c: SidebarConfig)
    ensures c == TherapistSidebar <==> role == Therapist
  {
    if role == Therapist then TherapistSidebar else AdminSidebar
  }

  /** sidebarMargin: the narrow margin while collapsed. */
  function SidebarMargin(collapsed: bool): (m: string)
    ensures m == "lg:ml-16" <==> collapsed
    ensures m == "lg:ml-64" <==> !collapsed
  {
    if collapsed then "lg:ml-16" else "lg:ml-64"
  }

  /** The layout's two flags. */
  class Layout {
    var sidebarOpen: bool
    var sidebarCollapsed: bool

    constructor ()
      ensures !sidebarOpen && !sidebarCollapsed
    {
      sidebarOpen := false;
      sidebarCollapsed := false;
    }

    /** The sidebar's collapse button. */
    method ToggleCollapse()
      modifies this
      ensures sidebarCollapsed == !old(sidebarCollapsed) && sidebarOpen == old(sidebarOpen)
    {
      sidebarCollapsed := !sidebarCollapsed;
    }

    /** The header's menu button. */
    method OpenSidebar()
      modifies this
      ensures sidebarOpen && sidebarCollapsed == old(sidebarCollapsed)
    {
      sidebarOpen := true;
    }

    /** The sidebar's close button or the backdrop. */
    method CloseSidebar()
      modifies this
      ensures !sidebarOpen && sidebarCollapsed == old(sidebarCollapsed)
    {
      sidebarOpen := false;
    }
  }

  /** Collapsing and expanding again gives back the margin there was. */
  method ToggleTwiceRestoresMargin(layout: Layout) returns (before: string, after: string)
    modifies layout
    ensures before == after && layout.sidebarCollapsed == old(layout.sidebarCollapsed)
  {
    before := SidebarMargin(layout.sidebarCollapsed);
    layout.ToggleCollapse();
    layout.ToggleCollapse();
    after := SidebarMargin(layout.sidebarCollapsed);
  }
}
