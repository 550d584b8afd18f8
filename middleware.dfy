/** AdminAccessMiddleware (visitor_portal/visitors/middleware.py): only
    superusers reach the admin site; signed-in guards and staff are sent to
    the dashboard, and everybody may reach the admin login and logout pages. */
module Middleware {
  import opened Text

  datatype Decision = PassThrough | RedirectToDashboard

  const AdminPrefix: string := "/admin/"
  const AdminLogin: string := "/admin/login/"
  const AdminLogout: string := "/admin/logout/"

  /** The decision taken for a request to `path` by a user with the given flags. */
  function AdminAccess(path: string, authenticated: bool, superuser: bool): (d: Decision)
    ensures d == RedirectToDashboard <==>
      StartsWith(path, AdminPrefix) && path != AdminLogin && path != AdminLogout && authenticated && !superuser
  {
    if StartsWith(path, AdminPrefix) then
      if path == AdminLogin || path == AdminLogout then PassThrough
      else if authenticated then
        if !superuser then RedirectToDashboard else PassThrough
      else PassThrough
    else PassThrough
  }

  /** Paths outside the admin site are never intercepted. */
  lemma OutsideAdminPasses(path: string, authenticated: bool, superuser: bool)
    requires !StartsWith(path, AdminPrefix)
    ensures AdminAccess(path, authenticated, superuser) == PassThrough
  {
  }

  /** The login and logout pages are open to every user. */
  lemma LoginLogoutPass(path: string, authenticated: bool, superuser: bool)
    requires path == AdminLogin || path == AdminLogout
    ensures AdminAccess(path, authenticated, superuser) == PassThrough
  {
  }

  /** An anonymous user is let through to the admin, which asks for a login. */
  lemma AnonymousPasses(path: string, superuser: bool)
    ensures AdminAccess(path, false, superuser) == PassThrough
  {
  }

  /** Superusers are never redirected. */
  lemma SuperuserPasses(path: string, authenticated: bool)
    ensures AdminAccess(path, authenticated, true) == PassThrough
  {
  }

  /** A signed-in non-superuser is redirected from every admin page other
      than login and logout, for example the admin index. */
  lemma StaffRedirected(path: string)
    requires StartsWith(path, AdminPrefix)
    requires path != AdminLogin && path != AdminLogout
    ensures AdminAccess(path, true, false) == RedirectToDashboard
  {
  }

  lemma AdminIndexRedirectsStaff()
    ensures AdminAccess("/admin/", true, false) == RedirectToDashboard
    ensures AdminAccess("/admin/visitors/visit/", true, true) == PassThrough
    ensures AdminAccess("/administrator/", true, false) == PassThrough
  {
    assert StartsWith("/admin/visitors/visit/", AdminPrefix);
    assert !StartsWith("/administrator/", AdminPrefix) by {
      assert "/administrator/"[..7] != AdminPrefix by {
        assert "/administrator/"[6] == 'i' && AdminPrefix[6] == '/';
      }
    }
  }
}
