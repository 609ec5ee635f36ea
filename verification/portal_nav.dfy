/** The portal navigation bar: it asks the server who is signed in, renders
    either a sign-in link or a user menu, opens and closes that menu, and
    escapes the name it shows.

    The DOM is reduced to the attributes the code reads and writes: the
    account container's `data-state`, the menu's `data-open`, the trigger's
    `aria-expanded`, the dropdown's `hidden`, and the escaped name text.
    Whether the elements exist is a flag. Navigating to the sign-out page
    is counted in `signouts`. */
module PortalNav {
  import opened Wrappers
  import opened Text
  import opened Js
  import Server

  const SignedInTag := "signed-in"
  const SignedOutTag := "signed-out"
  const DefaultDisplayName := "Profile"

  function BoolString(b: bool): string {
    if b then "true" else "false"
  }

  // ---------------------------------------------------------------
  // escapeHtml
  // ---------------------------------------------------------------

  /** The characters of the class `[&<>"]`. */
  predicate IsSpecial(c: char) {
    c == '&' || c == '<' || c == '>' || c == '"'
  }

  /** A string with none of `&<>"` in it. */
  predicate NoSpecials(s: string) {
    forall i :: 0 <= i < |s| ==> !IsSpecial(s[i])
  }

  /** The entity the lookup table gives a special character. */
  function Entity(c: char): (e: string)
    requires IsSpecial(c)
    ensures |e| >= 4 && e[0] == '&' && e[|e| - 1] == ';'
  {
    if c == '&' then "&amp;" else if c == '<' then "&lt;" else if c == '>' then "&gt;" else "&quot;"
  }

  /** The length of the run of special characters that `s` starts with. */
  function RunLength(s: string): (k: nat)
    ensures k <= |s|
    ensures forall i :: 0 <= i < k ==> IsSpecial(s[i])
    ensures k < |s| ==> !IsSpecial(s[k])
  {
    if s == [] || !IsSpecial(s[0]) then 0 else 1 + RunLength(s[1..])
  }

  /** `String(value).replace(/[&<>"]+/g, m => map[m] || m)` as written: each
      maximal run of special characters is one match, and the table only
      has one-character keys, so a run of two or more is kept as it is. */
  function EscapeHtml(s: string): (r: string)
    ensures |r| >= |s|
    ensures NoSpecials(s) ==> r == s
    decreases |s|
  {
    if s == [] then []
    else if !IsSpecial(s[0]) then
      assert NoSpecials(s) ==> NoSpecials(s[1..]);
      assert [s[0]] + s[1..] == s;
      [s[0]] + EscapeHtml(s[1..])
    else
      var k := RunLength(s);
      (if k == 1 then Entity(s[0]) else s[..k]) + EscapeHtml(s[k..])
  }

  /** A string in which no two special characters are adjacent. */
  predicate IsolatedSpecials(s: string) {
    forall i :: 0 <= i < |s| - 1 ==> !(IsSpecial(s[i]) && IsSpecial(s[i + 1]))
  }

  /** Characters outside `&<>"` are copied. */
  lemma EscapeHtmlKeepsPlain(c: char, rest: string)
    requires !IsSpecial(c)
    ensures EscapeHtml([c] + rest) == [c] + EscapeHtml(rest)
  {
    assert ([c] + rest)[1..] == rest;
  }

  /** A lone special character becomes its entity. */
  lemma EscapeHtmlLoneSpecial(c: char, rest: string)
    requires IsSpecial(c) && (rest == [] || !IsSpecial(rest[0]))
    ensures EscapeHtml([c] + rest) == Entity(c) + EscapeHtml(rest)
  {
    var s := [c] + rest;
    assert s[1..] == rest;
    assert RunLength(s) == 1;
  }

  /** A run of two or more special characters is returned verbatim. */
  lemma EscapeHtmlKeepsRuns(run: string, rest: string)
    requires |run| >= 2 && forall i :: 0 <= i < |run| ==> IsSpecial(run[i])
    requires rest == [] || !IsSpecial(rest[0])
    ensures EscapeHtml(run + rest) == run + EscapeHtml(rest)
  {
    var s := run + rest;
    RunLengthOfRun(run, rest);
    assert s[..|run|] == run && s[|run|..] == rest;
  }

  lemma {:induction false} RunLengthOfRun(run: string, rest: string)
    requires forall i :: 0 <= i < |run| ==> IsSpecial(run[i])
    requires rest == [] || !IsSpecial(rest[0])
    ensures RunLength(run + rest) == |run|
  {
    if run == [] {
      assert run + rest == rest;
    } else {
      assert (run + rest)[1..] == run[1..] + rest;
      RunLengthOfRun(run[1..], rest);
    }
  }

  /** The escape every call site expects: each special character replaced
      by its entity, everything else copied. */
  function EscapeEach(s: string): (r: string)
    ensures |r| >= |s|
    ensures |r| == |s| <==> NoSpecials(s)
    ensures NoSpecials(s) ==> r == s
  {
    if s == [] then []
    else
      assert NoSpecials(s) <==> !IsSpecial(s[0]) && NoSpecials(s[1..]);
      assert [s[0]] + s[1..] == s;
      (if IsSpecial(s[0]) then Entity(s[0]) else [s[0]]) + EscapeEach(s[1..])
  }

  /** As long as no two special characters are adjacent, the code as written
      escapes like the intended per-character escape. */
  lemma {:induction false} EscapeHtmlIsolated(s: string)
    requires IsolatedSpecials(s)
    ensures EscapeHtml(s) == EscapeEach(s)
    decreases |s|
  {
    if s != [] {
      assert IsolatedSpecials(s[1..]);
      EscapeHtmlIsolated(s[1..]);
      if IsSpecial(s[0]) {
        EscapeHtmlLoneSpecial(s[0], s[1..]);
        assert [s[0]] + s[1..] == s;
      }
    }
  }

  /** Two adjacent special characters are left unescaped: `<<` passes
      through as markup. */
  lemma EscapeHtmlLeavesPairs()
    ensures EscapeHtml("<<") == "<<"
    ensures EscapeEach("<<") == "&lt;&lt;"
    ensures EscapeHtml("\"><") == "\"><"
  {
    EscapeHtmlKeepsRuns("<<", "");
    EscapeHtmlKeepsRuns("\"><", "");
  }

  /** Decodes the four entities `EscapeEach` writes. */
  function Unescape(s: string): string
    decreases |s|
  {
    if s == [] then []
    else if StartsWith(s, "&amp;") then "&" + Unescape(s[5..])
    else if StartsWith(s, "&lt;") then "<" + Unescape(s[4..])
    else if StartsWith(s, "&gt;") then ">" + Unescape(s[4..])
    else if StartsWith(s, "&quot;") then "\"" + Unescape(s[6..])
    else [s[0]] + Unescape(s[1..])
  }

  lemma UnescapeOne(c: char, rest: string)
    ensures Unescape((if IsSpecial(c) then Entity(c) else [c]) + rest) == [c] + Unescape(rest)
  {
    var e := if IsSpecial(c) then Entity(c) else [c];
    var s := e + rest;
    assert s[..|e|] == e && s[|e|..] == rest;
    if c == '&' {
      assert StartsWith(s, "&amp;");
    } else if c == '<' {
      assert s[1] == 'l';
      assert !StartsWith(s, "&amp;");
      assert StartsWith(s, "&lt;");
    } else if c == '>' {
      assert s[1] == 'g';
      assert !StartsWith(s, "&amp;") && !StartsWith(s, "&lt;");
      assert StartsWith(s, "&gt;");
    } else if c == '"' {
      assert s[1] == 'q';
      assert !StartsWith(s, "&amp;") && !StartsWith(s, "&lt;") && !StartsWith(s, "&gt;");
      assert StartsWith(s, "&quot;");
    } else {
      assert s[0] == c != '&';
      assert !StartsWith(s, "&amp;") && !StartsWith(s, "&lt;") && !StartsWith(s, "&gt;") && !StartsWith(s, "&quot;");
    }
  }

  /** The intended escape loses nothing: decoding it gives the input back. */
  lemma {:induction false} EscapeEachRoundTrip(s: string)
    ensures Unescape(EscapeEach(s)) == s
  {
    if s != [] {
      EscapeEachRoundTrip(s[1..]);
      UnescapeOne(s[0], EscapeEach(s[1..]));
      assert [s[0]] + s[1..] == s;
    }
  }

  /** The intended escape leaves no `<`, `>` or `"` in its output. */
  lemma {:induction false} EscapeEachHasNoMarkup(s: string)
    ensures forall i :: 0 <= i < |EscapeEach(s)| ==> EscapeEach(s)[i] !in {'<', '>', '"'}
  {
    if s != [] {
      EscapeEachHasNoMarkup(s[1..]);
      var e := if IsSpecial(s[0]) then Entity(s[0]) else [s[0]];
      assert EscapeEach(s) == e + EscapeEach(s[1..]);
    }
  }

  // ---------------------------------------------------------------
  // The signed-in / signed-out decision
  // ---------------------------------------------------------------

  /** What the request for the auth state came back with. */
  datatype AuthFetch =
    | FetchFailed                              // `fetch` rejected
    | Fetched(ok: bool, body: Option<JsValue>) // `body` is None when `json()` rejects

  /** `user?.name || user?.email || "Profile"`. */
  function DisplayName(user: JsValue): (r: JsValue)
    ensures Truthy(r)
    ensures Truthy(OptionalGet(user, "name")) ==> r == OptionalGet(user, "name")
    ensures !Truthy(OptionalGet(user, "name")) && Truthy(OptionalGet(user, "email")) ==> r == OptionalGet(user, "email")
    ensures !Truthy(OptionalGet(user, "name")) && !Truthy(OptionalGet(user, "email")) ==> r == Str(DefaultDisplayName)
  {
    Or(Or(OptionalGet(user, "name"), OptionalGet(user, "email")), Str(DefaultDisplayName))
  }

  /** The user menu's attributes. */
  datatype Menu = Menu(hasDropdown: bool, hasTrigger: bool, open: string, ariaExpanded: string, hidden: bool)

  /** The state the navigation bar holds. */
  datatype NavState = NavState(state: string, isAuthenticated: bool, menu: Menu, nameText: string, signouts: nat)

  /** A closed menu as `renderSignedIn` writes it. */
  const ClosedMenu := Menu(true, true, "false", "false", true)

  /** When the menu exists, `data-open`, `aria-expanded` and `hidden` agree. */
  predicate Consistent(m: Menu) {
    m.hasDropdown && m.hasTrigger ==>
      (m.open == "true" || m.open == "false") && m.ariaExpanded == m.open && m.hidden == (m.open == "false")
  }

  /** The state before `init`. */
  const Unrendered := NavState("", false, Menu(false, false, "false", "false", true), "", 0)

  /** `renderSignedOut`: only the state tag changes. */
  function ShowSignedOut(n: NavState): (r: NavState)
    ensures r.state == SignedOutTag
    ensures r.(state := n.state) == n
  {
    n.(state := SignedOutTag)
  }

  /** `renderSignedIn`: the signed-in tag, a closed and consistent menu, and
      the escaped display name; nothing else changes. */
  function ShowSignedIn(n: NavState, user: JsValue): (r: NavState)
    ensures r.state == SignedInTag
    ensures r.menu == ClosedMenu && Consistent(r.menu)
    ensures |r.nameText| >= |ToJsString(DisplayName(user))|
    ensures NoSpecials(ToJsString(DisplayName(user))) ==> r.nameText == ToJsString(DisplayName(user))
    ensures r.(state := n.state, menu := n.menu, nameText := n.nameText) == n
  {
    n.(state := SignedInTag, menu := ClosedMenu, nameText := EscapeHtml(ToJsString(DisplayName(user))))
  }

  /** `init()`: nothing without the account container; otherwise signed in
      only for a well-formed body whose `authenticated` and `user` are both
      truthy, signed out on every other outcome. */
  function AfterInit(n: NavState, hasContainer: bool, f: AuthFetch): (r: NavState)
    ensures !hasContainer ==> r == n
    ensures hasContainer ==> r.state == SignedInTag || r.state == SignedOutTag
    ensures hasContainer && (f.FetchFailed? || !f.ok || f.body.None?) ==> r == ShowSignedOut(n)
    ensures hasContainer && f.Fetched? && f.ok && f.body.Some? ==>
              var data := f.body.value;
              && r.isAuthenticated == Truthy(OptionalGet(data, "authenticated"))
              && (r.state == SignedInTag <==>
                    Truthy(OptionalGet(data, "authenticated")) && Truthy(OptionalGet(data, "user")))
              && (r.state == SignedInTag ==>
                    r.menu == ClosedMenu && r.nameText == EscapeHtml(ToJsString(DisplayName(OptionalGet(data, "user")))))
    ensures hasContainer && r.state == SignedInTag ==> r.isAuthenticated
  {
    if !hasContainer then n
    else match f
      case FetchFailed => ShowSignedOut(n)
      case Fetched(ok, body) =>
        if !ok then ShowSignedOut(n)
        else match body
          case None => ShowSignedOut(n)
          case Some(data) =>
            var authenticated := Truthy(OptionalGet(data, "authenticated"));
            var n' := n.(isAuthenticated := authenticated);
            var user := OptionalGet(data, "user");
            if authenticated && Truthy(user) then ShowSignedIn(n', user) else ShowSignedOut(n')
  }

  /** The navigation bar fetches `/api/auth/me`, which the Express server
      does not define: its catch-all route answers 404 there, so against
      that server the bar always renders signed out. */
  lemma MeRouteRendersSignedOut(n: NavState, body: Option<JsValue>)
    ensures Server.Fallback("/api/auth/me").HttpStatus() == 404
    ensures AfterInit(n, true, Fetched(false, body)).state == SignedOutTag
  {
    Server.FallbackUnderApi("auth/me");
    assert "/api/" + "auth/me" == "/api/auth/me";
  }

  // ---------------------------------------------------------------
  // The menu
  // ---------------------------------------------------------------

  /** `toggleMenu(forceState)`: `force` is `Some(b)` when `forceState` is a
      boolean. */
  function Toggle(m: Menu, force: Option<bool>): (r: Menu)
    ensures !(m.hasDropdown && m.hasTrigger) ==> r == m
    ensures m.hasDropdown && m.hasTrigger ==>
              var next := if force.Some? then force.value else m.open != "true";
              r == m.(open := BoolString(next), ariaExpanded := BoolString(next), hidden := !next)
  {
    if !m.hasDropdown || !m.hasTrigger then m
    else
      var isOpen := m.open == "true";
      var nextState := if force.Some? then force.value else !isOpen;
      m.(open := BoolString(nextState), ariaExpanded := BoolString(nextState), hidden := !nextState)
  }

  /** Toggling keeps the three attributes in agreement. */
  lemma ToggleKeepsConsistent(m: Menu, force: Option<bool>)
    requires Consistent(m)
    ensures Consistent(Toggle(m, force))
  {
  }

  /** Two unforced toggles give back the menu they started from. */
  lemma ToggleTwiceRestores(m: Menu)
    requires Consistent(m)
    ensures Toggle(Toggle(m, None), None) == m
  {
  }

  /** `handleGlobalClick`: a click inside the menu changes nothing, one
      outside closes it. */
  function GlobalClick(m: Menu, inside: bool): (r: Menu)
    ensures inside ==> r == m
    ensures !inside ==> r == Toggle(m, Some(false))
    ensures m.hasDropdown && m.hasTrigger && !inside ==> r.open == "false" && r.hidden
  {
    if !m.hasDropdown || !m.hasTrigger then m
    else if inside then m
    else Toggle(m, Some(false))
  }

  /** Closing a menu that is already closed changes nothing. */
  lemma ClosingClosedMenuIsNoop(m: Menu)
    requires Consistent(m) && m.open == "false"
    ensures GlobalClick(m, false) == m
  {
  }

  /** The object form: the fields `init`, the render methods and the menu
      handlers overwrite. */
  class PortalNavigation {
    const hasAccountContainer: bool
    var state: string
    var isAuthenticated: bool
    var hasDropdown: bool
    var hasTrigger: bool
    var menuOpen: string
    var ariaExpanded: string
    var dropdownHidden: bool
    var nameText: string
    var signouts: nat

    ghost function CurrentMenu(): Menu
      reads this
    {
      Menu(hasDropdown, hasTrigger, menuOpen, ariaExpanded, dropdownHidden)
    }

    ghost function Snapshot(): NavState
      reads this
    {
      NavState(state, isAuthenticated, CurrentMenu(), nameText, signouts)
    }

    ghost predicate Valid()
      reads this
    {
      Consistent(CurrentMenu())
    }

    constructor (hasAccountContainer: bool)
      ensures Valid() && Snapshot() == Unrendered && this.hasAccountContainer == hasAccountContainer
    {
      this.hasAccountContainer := hasAccountContainer;
      state, isAuthenticated, nameText, signouts := "", false, "", 0;
      hasDropdown, hasTrigger := false, false;
      menuOpen, ariaExpanded, dropdownHidden := "false", "false", true;
    }

    method Init(f: AuthFetch)
      requires Valid()
      modifies this
      ensures Valid() && Snapshot() == AfterInit(old(Snapshot()), hasAccountContainer, f)
    {
      if !hasAccountContainer {
        return;
      }
      match f
      case FetchFailed =>
        RenderSignedOut();
      case Fetched(ok, body) =>
        if !ok {
          RenderSignedOut();
          return;
        }
        match body
        case None =>
          RenderSignedOut();
        case Some(data) =>
          isAuthenticated := Truthy(OptionalGet(data, "authenticated"));
          var user := OptionalGet(data, "user");
          if isAuthenticated && Truthy(user) {
            RenderSignedIn(user);
          } else {
            RenderSignedOut();
          }
    }

    method RenderSignedOut()
      requires Valid()
      modifies this
      ensures Valid() && Snapshot() == ShowSignedOut(old(Snapshot()))
    {
      state := SignedOutTag;
    }

    method RenderSignedIn(user: JsValue)
      requires Valid()
      modifies this
      ensures Valid() && Snapshot() == ShowSignedIn(old(Snapshot()), user)
    {
      var name := EscapeHtml(ToJsString(DisplayName(user)));
      state := SignedInTag;
      nameText := name;
      menuOpen, ariaExpanded, dropdownHidden := "false", "false", true;
      hasDropdown, hasTrigger := true, true;
      assert CurrentMenu() == ClosedMenu;
    }

    method ToggleMenu(force: Option<bool>)
      requires Valid()
      modifies this
      ensures Valid() && Snapshot() == old(Snapshot()).(menu := Toggle(old(CurrentMenu()), force))
    {
      if !hasDropdown || !hasTrigger {
        return;
      }
      var isOpen := menuOpen == "true";
      var nextState := if force.Some? then force.value else !isOpen;
      menuOpen := BoolString(nextState);
      ariaExpanded := BoolString(nextState);
      dropdownHidden := !nextState;
    }

    /** A click anywhere in the document; `inside` says whether its target
        lies within the menu. */
    method HandleGlobalClick(inside: bool)
      requires Valid()
      modifies this
      ensures Valid() && Snapshot() == old(Snapshot()).(menu := GlobalClick(old(CurrentMenu()), inside))
    {
      if !hasDropdown || !hasTrigger {
        return;
      }
      if inside {
        return;
      }
      ToggleMenu(Some(false));
    }

    /** The menu's "Sign Out" button: render signed out, then navigate. The
        dropdown fields keep pointing at the detached menu. */
    method LogoutClick()
      requires Valid()
      modifies this
      ensures Valid() && Snapshot() == ShowSignedOut(old(Snapshot())).(signouts := old(signouts) + 1)
    {
      RenderSignedOut();
      signouts := signouts + 1;
    }
  }
}
