/**
 * The sidebar's highlighting rule: which menu entry counts as active for the
 * current location.
 */
module Sidebar {
  import opened JsBuiltins

  /** The menu's paths, in display order: dashboard, users, documents, settings. */
  const MenuPaths: seq<string> := ["/", "/users", "/documents", "/settings"]

  /** `isActive(path)`: the root only on the root itself, any other entry on every location under its prefix. */
  predicate IsActive(path: string, pathname: string)
  {
    if path == "/" then pathname == "/" else StartsWith(pathname, path)
  }

  /** A non-root entry is active exactly on the locations that begin with its path. */
  lemma IsActiveMeaning(path: string, pathname: string)
    ensures path == "/" ==> (IsActive(path, pathname) <==> pathname == "/")
    ensures path != "/" ==> (IsActive(path, pathname) <==> exists rest :: pathname == path + rest)
  {
    if path != "/" && StartsWith(pathname, path) {
      assert pathname == path + pathname[|path|..];
    }
    if path != "/" && exists rest :: pathname == path + rest {
      var rest :| pathname == path + rest;
      assert pathname[..|path|] == path;
    }
  }

  /** Sub-routes of an entry keep it active and leave the root inactive. */
  lemma SubRoutesActivateTheirEntry(path: string, rest: string)
    requires path != "/" && path != ""
    ensures IsActive(path, path + rest)
    ensures path + rest != "/" ==> !IsActive("/", path + rest)
  {
    assert (path + rest)[..|path|] == path;
  }

  /** The users entry is active on "/users/new" and "/users/5", the root is not, and the test is a plain character prefix. */
  lemma UsersRoutes()
    ensures IsActive("/users", "/users/new") && IsActive("/users", "/users/5")
    ensures !IsActive("/", "/users/new") && !IsActive("/", "/users/5")
    ensures IsActive("/users", "/usersX")
  {
    SubRoutesActivateTheirEntry("/users", "/new");
    SubRoutesActivateTheirEntry("/users", "/5");
    SubRoutesActivateTheirEntry("/users", "X");
  }

  /** However the location reads, at most one menu entry is highlighted. */
  lemma AtMostOneEntryActive(pathname: string, i: int, j: int)
    requires 0 <= i < |MenuPaths| && 0 <= j < |MenuPaths| && i != j
    ensures !(IsActive(MenuPaths[i], pathname) && IsActive(MenuPaths[j], pathname))
  {
    var p, q := MenuPaths[i], MenuPaths[j];
    assert StartsWith(pathname, p) && |p| > 1 ==> pathname[1] == pathname[..|p|][1] == p[1];
    assert StartsWith(pathname, q) && |q| > 1 ==> pathname[1] == pathname[..|q|][1] == q[1];
  }
}
