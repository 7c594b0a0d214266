/**
 The site navigation bar (`components/navbar.tsx`): which menus and which
 destinations it offers for the signed-in user, the letter shown when the
 avatar picture is missing, and the logout handler.

 Rendering, icons and styling are not modelled. The bar is described by the
 set of menus it shows and the set of routes it links to.
 */
module Navbar {
  import opened Wrappers
  import opened AuthStore

  /** The pages the bar links to. */
  datatype Route =
    | Home | SymptomChecker | PrescriptionAnalyzer | BookAppointments
    | DoctorAppointments | DoctorPatients | AdminUsers | AdminAnalytics
    | Profile | MyAppointments | Login

  /** The path each route navigates to. */
  function Path(r: Route): string {
    match r
    case Home => "/"
    case SymptomChecker => "/symptom-checker"
    case PrescriptionAnalyzer => "/prescription-analyzer"
    case BookAppointments => "/book/appointments"
    case DoctorAppointments => "/doctor/appointments"
    case DoctorPatients => "/doctor/patients"
    case AdminUsers => "/admin/users"
    case AdminAnalytics => "/admin/analytics"
    case Profile => "/profile"
    case MyAppointments => "/appointments"
    case Login => "/auth/login"
  }

  /** Different routes navigate to different paths. */
  lemma PathInjective(r1: Route, r2: Route)
    ensures Path(r1) == Path(r2) <==> r1 == r2
  {
  }

  const LogoutNotice: string := "Logged out successfully"

  /** The parts of the bar that may or may not appear. */
  datatype Menu =
    | ServicesMenu   // "AI Health Tools", always shown
    | DoctorMenu     // "Doctor Dashboard"
    | AdminMenu      // "Admin Panel"
    | AccountMenu    // avatar, name and "My Account"
    | LoginButton    // link to the sign-in page

  function Role(user: Option<UserData>): Option<string> {
    match user
    case None => None
    case Some(u) => Some(u.role)
  }

  /** The menus shown for `user` (`None`: nobody signed in). */
  function Menus(user: Option<UserData>): (r: set<Menu>)
    ensures ServicesMenu in r
    ensures DoctorMenu in r <==> Role(user) == Some("doctor")
    ensures AdminMenu in r <==> Role(user) == Some("admin")
    ensures AccountMenu in r <==> user.Some?
    ensures LoginButton in r <==> user.None?
  {
    {ServicesMenu}
    + (if Role(user) == Some("doctor") then {DoctorMenu} else {})
    + (if Role(user) == Some("admin") then {AdminMenu} else {})
    + (if user.Some? then {AccountMenu} else {LoginButton})
  }

  /** The destinations each menu links to, for a user with the given role. */
  function MenuRoutes(m: Menu, role: Option<string>): (r: set<Route>)
    ensures r != {}
    ensures forall route :: route in r ==> MenuOf(route) == Some(m)
  {
    match m
    case ServicesMenu => {SymptomChecker, PrescriptionAnalyzer, BookAppointments}
    case DoctorMenu => {DoctorAppointments, DoctorPatients}
    case AdminMenu => {AdminUsers, AdminAnalytics}
    case AccountMenu => {Profile} + (if role == Some("user") then {MyAppointments} else {})
    case LoginButton => {Login}
  }

  /** Every route the bar links to: the logo's link home plus the menus' items. */
  function Routes(user: Option<UserData>): (r: set<Route>)
    ensures Home in r
    ensures forall m :: m in Menus(user) ==> MenuRoutes(m, Role(user)) <= r
  {
    {Home} + (set m, route | m in Menus(user) && route in MenuRoutes(m, Role(user)) :: route)
  }

  /** Who may see a link to `route`, stated route by route. */
  predicate Offered(route: Route, user: Option<UserData>) {
    match route
    case Home | SymptomChecker | PrescriptionAnalyzer | BookAppointments => true
    case DoctorAppointments | DoctorPatients => Role(user) == Some("doctor")
    case AdminUsers | AdminAnalytics => Role(user) == Some("admin")
    case Profile => user.Some?
    case MyAppointments => Role(user) == Some("user")
    case Login => user.None?
  }

  /** The menu that holds a route, if any does. */
  function MenuOf(route: Route): Option<Menu> {
    match route
    case Home => None
    case SymptomChecker | PrescriptionAnalyzer | BookAppointments => Some(ServicesMenu)
    case DoctorAppointments | DoctorPatients => Some(DoctorMenu)
    case AdminUsers | AdminAnalytics => Some(AdminMenu)
    case Profile | MyAppointments => Some(AccountMenu)
    case Login => Some(LoginButton)
  }

  lemma OfferedIsLinked(user: Option<UserData>, route: Route)
    requires Offered(route, user)
    ensures route in Routes(user)
  {
    if route != Home {
      var m := MenuOf(route).value;
      assert m in Menus(user) && route in MenuRoutes(m, Role(user));
    }
  }

  lemma LinkedIsOffered(user: Option<UserData>, route: Route)
    requires route in Routes(user)
    ensures Offered(route, user)
  {
    if route != Home {
      var m :| m in Menus(user) && route in MenuRoutes(m, Role(user));
      ShownMenuOffered(user, m, route);
    }
  }

  lemma ShownMenuOffered(user: Option<UserData>, m: Menu, route: Route)
    requires m in Menus(user) && route in MenuRoutes(m, Role(user))
    ensures Offered(route, user)
  {
    match m
    case ServicesMenu =>
    case DoctorMenu =>
    case AdminMenu =>
    case AccountMenu =>
    case LoginButton =>
  }

  /** The menu-by-menu construction links exactly the routes the route-by-route
      rule allows. */
  lemma RoutesAreOffered(user: Option<UserData>, route: Route)
    ensures route in Routes(user) <==> Offered(route, user)
  {
    if route in Routes(user) {
      LinkedIsOffered(user, route);
    }
    if Offered(route, user) {
      OfferedIsLinked(user, route);
    }
  }

  /** The doctor and admin menus never appear together. */
  lemma RoleMenusExclusive(user: Option<UserData>)
    ensures !(DoctorMenu in Menus(user) && AdminMenu in Menus(user))
  {
  }

  /** Exactly one of the account menu and the login button is shown. */
  lemma AccountXorLogin(user: Option<UserData>)
    ensures (AccountMenu in Menus(user)) != (LoginButton in Menus(user))
  {
  }

  /** Nobody signed in: the services, home and sign-in links only. */
  lemma SignedOutRoutes()
    ensures Routes(None) == {Home, SymptomChecker, PrescriptionAnalyzer, BookAppointments, Login}
  {
    var expected := {Home, SymptomChecker, PrescriptionAnalyzer, BookAppointments, Login};
    forall route
      ensures route in Routes(None) <==> route in expected
    {
      RoutesAreOffered(None, route);
    }
  }

  /** A signed-in user whose role is none of the three known ones gets the
      services, home and profile links and nothing role-specific. */
  lemma UnknownRoleRoutes(u: UserData)
    requires u.role != "doctor" && u.role != "admin" && u.role != "user"
    ensures Routes(Some(u)) == {Home, SymptomChecker, PrescriptionAnalyzer, BookAppointments, Profile}
  {
    var expected := {Home, SymptomChecker, PrescriptionAnalyzer, BookAppointments, Profile};
    forall route
      ensures route in Routes(Some(u)) <==> route in expected
    {
      RoutesAreOffered(Some(u), route);
    }
  }

  // ---------------------------------------------------------------------------
  // Avatar fallback
  // ---------------------------------------------------------------------------

  /** `toUpperCase` on one character, for the ASCII letters. */
  function UpperAscii(c: char): (r: char)
    ensures 'a' <= c <= 'z' ==> 'A' <= r <= 'Z' && r as int == c as int - 32
    ensures !('a' <= c <= 'z') ==> r == c
  {
    if 'a' <= c <= 'z' then (c as int - 32) as char else c
  }

  /** `name.charAt(0).toUpperCase()`: the first character upper-cased, or the
      empty text for an empty name. */
  function AvatarInitial(name: string): (r: string)
    ensures |r| <= 1
    ensures r == [] <==> name == []
    ensures r != [] ==> !('a' <= r[0] <= 'z')
    ensures r != [] && 'a' <= name[0] <= 'z' ==> r[0] as int == name[0] as int - 32
    ensures r != [] && !('a' <= name[0] <= 'z') ==> r[0] == name[0]
  {
    if name == [] then [] else [UpperAscii(name[0])]
  }

  /** The initial depends only on the first character, and upper-casing it
      again changes nothing. */
  lemma AvatarInitialStable(name: string, rest: string)
    requires name != []
    ensures AvatarInitial(name + rest) == AvatarInitial(name)
    ensures AvatarInitial(AvatarInitial(name)) == AvatarInitial(name)
  {
    assert (name + rest)[0] == name[0];
  }

  // ---------------------------------------------------------------------------
  // Logout
  // ---------------------------------------------------------------------------

  /** What a click on "Logout" leaves behind: the store, the page navigated
      to and the notice shown. */
  datatype LogoutOutcome = LogoutOutcome(store: Store, navigateTo: Route, notice: string)

  /** The handler as written: the call that would clear the user is commented
      out, so it only shows the notice and navigates home. */
  function HandleLogout(store: Store): (r: LogoutOutcome)
    ensures r.store == store
    ensures r.navigateTo == Home && r.notice == LogoutNotice
  {
    LogoutOutcome(store, Home, LogoutNotice)
  }

  /** After the handler as written, a signed-in user is still signed in: the
      bar keeps the account menu and never offers the sign-in link, and a
      reload keeps the user too. */
  lemma LogoutKeepsUserSignedIn(store: Store)
    requires store.state.user.Some?
    requires Persisted(store)
    ensures var after := HandleLogout(store).store;
      after.state.user == store.state.user
      && AccountMenu in Menus(after.state.user)
      && LoginButton !in Menus(after.state.user)
      && Hydrate(after.storage).state.user.Some?
  {
  }

  /** The handler as evidently intended: clear the user, then notify and go home. */
  function HandleLogoutCorrected(store: Store): (r: LogoutOutcome)
    ensures r.store.state == InitialState && Persisted(r.store)
    ensures r.navigateTo == Home && r.notice == LogoutNotice
  {
    LogoutOutcome(ClearUser(store), Home, LogoutNotice)
  }

  /** After the corrected handler the bar shows the sign-in link and no
      account or role menu, and a reload stays signed out. */
  lemma CorrectedLogoutSignsOut(store: Store)
    ensures var after := HandleLogoutCorrected(store).store;
      Menus(after.state.user) == {ServicesMenu, LoginButton}
      && Routes(after.state.user) == Routes(None)
      && Hydrate(after.storage).state == InitialState
  {
    var after := HandleLogoutCorrected(store).store;
    assert after.state.user == None;
  }
}
