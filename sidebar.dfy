/**
 * `isActive` of the navigation sidebar: whether a navigation item's URL is
 * the current page, exactly or as a path prefix that respects segments.
 */
module Sidebar {
  import opened Strings

  /** The URL with a trailing "/" added when it has none. */
  function WithSlash(s: string): (r: string)
    ensures EndsWith(r, '/')
    ensures EndsWith(s, '/') ==> r == s
    ensures !EndsWith(s, '/') ==> r == s + "/"
  {
    if EndsWith(s, '/') then s else s + "/"
  }

  /** `isActive(url, currentUrl, exact)`; `exact` defaults to false at the call sites that omit it. */
  function IsActive(url: string, currentUrl: string, exact: bool): bool {
    if exact then currentUrl == url
    else StartsWith(WithSlash(currentUrl), WithSlash(url))
  }

  /** An exact item is active only on its own URL. */
  lemma ExactIsEquality(url: string, currentUrl: string)
    ensures IsActive(url, currentUrl, true) <==> currentUrl == url
  {
  }

  /** Every item is active on its own URL, exact or not. */
  lemma ActiveOnItsOwnUrl(url: string, exact: bool)
    ensures IsActive(url, url, exact)
  {
  }

  /**
   * A non-exact item whose URL has no trailing "/" is active exactly on its
   * own URL and on the URLs below it: a longer name that merely starts with
   * the same letters does not count.
   */
  lemma PrefixRespectsSegments(url: string, currentUrl: string)
    requires !EndsWith(url, '/')
    ensures IsActive(url, currentUrl, false) <==> currentUrl == url || StartsWith(currentUrl, url + "/")
  {
    var u := url + "/";
    var c := WithSlash(currentUrl);
    if StartsWith(c, u) && !EndsWith(currentUrl, '/') {
      assert c == currentUrl + "/";
      if |currentUrl| > |url| {
        assert currentUrl[..|u|] == c[..|u|];
      } else {
        assert currentUrl == c[..|url|];
      }
    }
    if StartsWith(currentUrl, u) {
      assert c[..|u|] == currentUrl[..|u|];
    }
    if currentUrl == url {
      assert c == u;
    }
  }

  /** '/turmas' is active on '/turmas/5' and on '/turmas/', but not on '/turmasx'. */
  lemma TurmasExample()
    ensures IsActive("/turmas", "/turmas/5", false)
    ensures IsActive("/turmas", "/turmas/", false)
    ensures !IsActive("/turmas", "/turmasx", false)
  {
    PrefixRespectsSegments("/turmas", "/turmas/5");
    PrefixRespectsSegments("/turmas", "/turmas/");
    PrefixRespectsSegments("/turmas", "/turmasx");
  }
}
