/**
 * The role-aware dashboard shell (src/components/dashboard-layout.tsx): the
 * navigation table per role, the exact-match highlight of the current path, the
 * avatar initial, and the mount guard in front of all of it. Icons are left out.
 */
module DashboardLayout {
  import opened Wrappers

  /** One navigation entry: its label (also the list key) and its path. */
  datatype NavItem = NavItem(name: string, href: string)

  function Names(nav: seq<NavItem>): (r: seq<string>)
    ensures |r| == |nav| && forall i :: 0 <= i < |nav| ==> r[i] == nav[i].name
  {
    if nav == [] then [] else [nav[0].name] + Names(nav[1..])
  }

  function Hrefs(nav: seq<NavItem>): (r: seq<string>)
    ensures |r| == |nav| && forall i :: 0 <= i < |nav| ==> r[i] == nav[i].href
  {
    if nav == [] then [] else [nav[0].href] + Hrefs(nav[1..])
  }

  predicate NamesDistinct(nav: seq<NavItem>)
  {
    forall i, j :: 0 <= i < j < |nav| ==> nav[i].name != nav[j].name
  }

  predicate HrefsDistinct(nav: seq<NavItem>)
  {
    forall i, j :: 0 <= i < j < |nav| ==> nav[i].href != nav[j].href
  }

  /** The three roles that have a navigation set. */
  predicate KnownRole(role: Option<string>)
  {
    role == Some("patient") || role == Some("doctor") || role == Some("admin")
  }

  /** `getNavigation`: the ordered navigation entries of a role (`null` is None). */
  function GetNavigation(role: Option<string>): (r: seq<NavItem>)
    ensures r == [] <==> !KnownRole(role)
    ensures NamesDistinct(r) && HrefsDistinct(r)
  {
    match role
    case Some("patient") =>
      [ NavItem("Overview", "/dashboard"),
        NavItem("Appointments", "/dashboard/appointments"),
        NavItem("Lab Results", "/dashboard/lab-results"),
        NavItem("Profile", "/dashboard/profile"),
        NavItem("Settings", "/dashboard/settings") ]
    case Some("doctor") =>
      [ NavItem("Dashboard", "/docs"),
        NavItem("Appointments", "/docs/appointments"),
        NavItem("Status", "/docs/status"),
        NavItem("Settings", "/docs/settings") ]
    case Some("admin") =>
      [ NavItem("Patients", "/admin/patients"),
        NavItem("Doctors", "/admin/doctors"),
        NavItem("Appointments", "/admin/appointments"),
        NavItem("Ambulances", "/admin/ambulances") ]
    case _ => []
  }

  lemma PatientNavigation()
    ensures Names(GetNavigation(Some("patient")))
         == ["Overview", "Appointments", "Lab Results", "Profile", "Settings"]
    ensures Hrefs(GetNavigation(Some("patient")))
         == ["/dashboard", "/dashboard/appointments", "/dashboard/lab-results",
             "/dashboard/profile", "/dashboard/settings"]
  {
    var nav := GetNavigation(Some("patient"));
    var names, hrefs := Names(nav), Hrefs(nav);
    assert names[0] == "Overview" && names[1] == "Appointments" && names[2] == "Lab Results";
    assert names[3] == "Profile" && names[4] == "Settings";
    assert hrefs[0] == "/dashboard" && hrefs[1] == "/dashboard/appointments" && hrefs[2] == "/dashboard/lab-results";
    assert hrefs[3] == "/dashboard/profile" && hrefs[4] == "/dashboard/settings";
  }

  lemma DoctorNavigation()
    ensures Names(GetNavigation(Some("doctor"))) == ["Dashboard", "Appointments", "Status", "Settings"]
    ensures Hrefs(GetNavigation(Some("doctor"))) == ["/docs", "/docs/appointments", "/docs/status", "/docs/settings"]
  {
    var nav := GetNavigation(Some("doctor"));
    var names, hrefs := Names(nav), Hrefs(nav);
    assert names[0] == "Dashboard" && names[1] == "Appointments" && names[2] == "Status" && names[3] == "Settings";
    assert hrefs[0] == "/docs" && hrefs[1] == "/docs/appointments" && hrefs[2] == "/docs/status";
    assert hrefs[3] == "/docs/settings";
  }

  lemma AdminNavigation()
    ensures Names(GetNavigation(Some("admin"))) == ["Patients", "Doctors", "Appointments", "Ambulances"]
    ensures Hrefs(GetNavigation(Some("admin")))
         == ["/admin/patients", "/admin/doctors", "/admin/appointments", "/admin/ambulances"]
  {
    var nav := GetNavigation(Some("admin"));
    var names, hrefs := Names(nav), Hrefs(nav);
    assert names[0] == "Patients" && names[1] == "Doctors" && names[2] == "Appointments" && names[3] == "Ambulances";
    assert hrefs[0] == "/admin/patients" && hrefs[1] == "/admin/doctors" && hrefs[2] == "/admin/appointments";
    assert hrefs[3] == "/admin/ambulances";
  }

  /** One rendered menu entry: its key, its link, and whether it is highlighted. */
  datatype MenuEntry = MenuEntry(key: string, href: string, active: bool)

  /**
   * `navigation.map(item => ...)`: one entry per navigation item, in order, keyed by
   * its name and highlighted exactly when its path equals `pathname`, with no
   * prefix matching. The mobile and the desktop menu are both this list.
   */
  function Menu(nav: seq<NavItem>, pathname: string): (m: seq<MenuEntry>)
    ensures |m| == |nav|
    ensures forall i :: 0 <= i < |nav| ==>
      m[i].key == nav[i].name && m[i].href == nav[i].href && (m[i].active <==> nav[i].href == pathname)
  {
    if nav == [] then []
    else [MenuEntry(nav[0].name, nav[0].href, pathname == nav[0].href)] + Menu(nav[1..], pathname)
  }

  /** The number of highlighted entries of a menu. */
  function ActiveCount(m: seq<MenuEntry>): nat
  {
    if m == [] then 0 else (if m[0].active then 1 else 0) + ActiveCount(m[1..])
  }

  lemma {:induction false} NoneActive(nav: seq<NavItem>, pathname: string)
    requires forall i :: 0 <= i < |nav| ==> nav[i].href != pathname
    ensures ActiveCount(Menu(nav, pathname)) == 0
  {
    if nav != [] {
      NoneActive(nav[1..], pathname);
      assert Menu(nav, pathname)[1..] == Menu(nav[1..], pathname);
    }
  }

  /**
   * With distinct paths, exactly one entry is highlighted when the current path is
   * one of the menu's paths, and none otherwise.
   */
  lemma {:induction false} ActiveIffListed(nav: seq<NavItem>, pathname: string)
    requires HrefsDistinct(nav)
    ensures ActiveCount(Menu(nav, pathname)) <= 1
    ensures ActiveCount(Menu(nav, pathname)) == 1 <==> pathname in Hrefs(nav)
  {
    if nav != [] {
      var m := Menu(nav, pathname);
      assert m[1..] == Menu(nav[1..], pathname);
      assert Hrefs(nav) == [nav[0].href] + Hrefs(nav[1..]);
      if nav[0].href == pathname {
        NoneActive(nav[1..], pathname);
      } else {
        ActiveIffListed(nav[1..], pathname);
      }
    }
  }

  /** A prefix of the current path is not highlighted: a patient on their appointments page sees only "Appointments" lit. */
  lemma NoPrefixMatch()
    ensures var m := Menu(GetNavigation(Some("patient")), "/dashboard/appointments");
      !m[0].active && m[1].active && ActiveCount(m) == 1
  {
    var nav := GetNavigation(Some("patient"));
    ActiveIffListed(nav, "/dashboard/appointments");
    assert Hrefs(nav)[1] == "/dashboard/appointments";
  }

  /** The signed-in user, as far as the layout reads it. */
  datatype User = User(name: Option<string>)

  /** `user?.name?.[0] || 'U'`. */
  function AvatarInitial(user: Option<User>): (c: char)
    ensures user.Some? && user.value.name.Some? && user.value.name.value != "" ==> c == user.value.name.value[0]
    ensures user.None? || user.value.name.None? || user.value.name.value == "" ==> c == 'U'
  {
    match user
    case Some(User(Some(name))) => if name != "" then name[0] else 'U'
    case _ => 'U'
  }

  /** What the layout renders once mounted: both menus and the avatar initial. */
  datatype Frame = Frame(mobileMenu: seq<MenuEntry>, desktopMenu: seq<MenuEntry>, avatar: char)

  /**
   * `DashboardLayout`: nothing (and no navigation) before the mount flag is set;
   * afterwards the two menus, built from the same navigation list, and the avatar.
   */
  function Render(isMounted: bool, role: Option<string>, pathname: string, user: Option<User>): (r: Option<Frame>)
    ensures r.None? <==> !isMounted
    ensures r.Some? ==> r.value.mobileMenu == r.value.desktopMenu
    ensures r.Some? ==> var nav := GetNavigation(role);
      |r.value.mobileMenu| == |nav| &&
      forall i :: 0 <= i < |nav| ==>
        r.value.mobileMenu[i].href == nav[i].href && (r.value.mobileMenu[i].active <==> nav[i].href == pathname)
    ensures r.Some? ==> ActiveCount(r.value.mobileMenu) <= 1
    ensures r.Some? ==> r.value.avatar == AvatarInitial(user)
  {
    if !isMounted then None
    else
      var navigation := GetNavigation(role);
      var menu := Menu(navigation, pathname);
      ActiveIffListed(navigation, pathname);
      Some(Frame(menu, menu, AvatarInitial(user)))
  }
}
