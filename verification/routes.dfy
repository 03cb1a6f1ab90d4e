/**
 * The routes of the signed-in part of the app (src/App.tsx): inside the
 * `/:token` route, a `<Switch>` renders the first child route whose pattern
 * matches the rest of the path, and its last child, a route with no
 * pattern, redirects to "/calendar".
 *
 * A route pattern is compiled the way the router compiles it: the literal
 * part is matched without regard to ASCII case, a route that is not nested
 * must match the whole path, one trailing "/" is allowed, and an optional
 * parameter `/:name?` matches one non-empty path segment.
 */
module Routes {
  import opened Wrappers
  import Chars
  import Utils

  /** A pattern: a lowercase literal such as "/calendar", optionally followed
      by one optional parameter segment `/:name?`. */
  datatype Pattern = Pattern(literal: string, param: Option<string>)

  datatype Page = CalendarPage | AgendaPage | MealStatsPage

  /** What the `<Switch>` does with a path: render a page with the route's
      parameters, or redirect. */
  datatype Routed = Show(page: Page, params: map<string, string>) | RedirectTo(target: string)

  /** The path begins with the literal, compared without regard to case. */
  predicate StartsWithLiteral(path: string, literal: string) {
    |literal| <= |path| && Utils.LowerCase(path[..|literal|]) == literal
  }

  /** A value the parameter can take: one non-empty segment. */
  predicate Segment(v: string) {
    v != "" && '/' !in v
  }

  /** The parameters a pattern gives a path, or `None` when it does not match. */
  function MatchPattern(p: Pattern, path: string): (r: Option<map<string, string>>)
    ensures r.Some? ==> StartsWithLiteral(path, p.literal)
    ensures StartsWithLiteral(path, p.literal) && (path[|p.literal|..] == "" || path[|p.literal|..] == "/")
      ==> r == Some(map[])
    ensures r == Some(map[]) ==> path[|p.literal|..] == "" || path[|p.literal|..] == "/"
    ensures r.Some? && p.param.None? ==> r.value == map[]
    ensures r.Some? && r.value != map[] ==> (p.param.Some? && r.value.Keys == {p.param.value}
      && Segment(r.value[p.param.value])
      && (path[|p.literal|..] == "/" + r.value[p.param.value] || path[|p.literal|..] == "/" + r.value[p.param.value] + "/"))
  {
    if !StartsWithLiteral(path, p.literal) then None
    else
      var rest := path[|p.literal|..];
      if rest == "" || rest == "/" then Some(map[])
      else if p.param.None? || rest[0] != '/' then None
      else
        var v := if rest[|rest| - 1] == '/' then rest[1..|rest| - 1] else rest[1..];
        if Segment(v) then
          assert rest == "/" + v || rest == "/" + v + "/";
          var m := map[p.param.value := v];
          assert p.param.value in m && m != map[];
          Some(m)
        else None
  }

  /** A path whose character at `k` is not a letter and differs from the
      literal's does not begin with the literal. */
  lemma LiteralMismatch(path: string, literal: string, k: nat)
    requires k < |literal| <= |path|
    requires !Chars.IsUpper(path[k]) && path[k] != literal[k]
    ensures !StartsWithLiteral(path, literal)
  {
    assert Utils.LowerCase(path[..|literal|])[k] == path[k];
  }

  /** A segment after the literal is read back as the parameter's value. */
  lemma MatchSegment(p: Pattern, path: string, v: string)
    requires p.param.Some? && StartsWithLiteral(path, p.literal) && Segment(v)
    requires path[|p.literal|..] == "/" + v || path[|p.literal|..] == "/" + v + "/"
    ensures MatchPattern(p, path) == Some(map[p.param.value := v])
  {
    var rest := path[|p.literal|..];
    if rest == "/" + v + "/" {
      assert rest[1..|rest| - 1] == v;
    } else {
      assert rest[|rest| - 1] == v[|v| - 1] != '/';
      assert rest[1..] == v;
    }
  }

  /** The route at index `i` is the first of the table that matches. */
  predicate FirstMatch(routes: seq<(Pattern, Page)>, path: string, i: int) {
    0 <= i < |routes| && MatchPattern(routes[i].0, path).Some?
    && forall j :: 0 <= j < i ==> MatchPattern(routes[j].0, path).None?
  }

  /** The first route of the table that matches, or the redirect to
      "/calendar" when none does. */
  function Switch(routes: seq<(Pattern, Page)>, path: string): (r: Routed)
    ensures r.RedirectTo? <==> forall i :: 0 <= i < |routes| ==> MatchPattern(routes[i].0, path).None?
    ensures r.RedirectTo? ==> r.target == "/calendar"
  {
    if routes == [] then RedirectTo("/calendar")
    else
      var m := MatchPattern(routes[0].0, path);
      if m.Some? then Show(routes[0].1, m.value)
      else
        assert forall i :: 1 <= i < |routes| ==> routes[i] == routes[1..][i - 1];
        Switch(routes[1..], path)
  }

  /** A page is shown for the first matching route, with its parameters. */
  lemma {:induction false} SwitchFirst(routes: seq<(Pattern, Page)>, path: string, i: int)
    requires FirstMatch(routes, path, i)
    ensures Switch(routes, path) == Show(routes[i].1, MatchPattern(routes[i].0, path).value)
  {
    if i > 0 {
      assert MatchPattern(routes[0].0, path).None?;
      assert FirstMatch(routes[1..], path, i - 1) by {
        assert forall j :: 0 <= j < i - 1 ==> routes[1..][j] == routes[j + 1];
      }
      SwitchFirst(routes[1..], path, i - 1);
    }
  }

  /** The routes as src/App.tsx writes them: none has a parameter. */
  function AppRoutes(): (r: seq<(Pattern, Page)>)
    ensures |r| == 3 && forall i :: 0 <= i < |r| ==> r[i].0.param.None?
  {
    [(Pattern("/calendar", None), CalendarPage),
     (Pattern("/agenda", None), AgendaPage),
     (Pattern("/stats", None), MealStatsPage)]
  }

  /** The same routes with the calendar's evidently intended optional
      parameter, "/calendar/:definitionId?". */
  function IntendedRoutes(): (r: seq<(Pattern, Page)>)
    ensures |r| == |AppRoutes()| && r[1..] == AppRoutes()[1..] && r[0].1 == AppRoutes()[0].1
    ensures r[0].0 == Pattern(AppRoutes()[0].0.literal, Some("definitionId"))
  {
    [(Pattern("/calendar", Some("definitionId")), CalendarPage),
     (Pattern("/agenda", None), AgendaPage),
     (Pattern("/stats", None), MealStatsPage)]
  }

  /** Where a path ends up after at most one redirect. */
  function Resolve(routes: seq<(Pattern, Page)>, path: string): (r: Routed)
    ensures Switch(routes, path).Show? ==> r == Switch(routes, path)
    ensures r.RedirectTo? ==> (r.target == "/calendar"
      && (forall i :: 0 <= i < |routes| ==> MatchPattern(routes[i].0, path).None?)
      && (forall i :: 0 <= i < |routes| ==> MatchPattern(routes[i].0, "/calendar").None?))
  {
    var r := Switch(routes, path);
    if r.RedirectTo? then Switch(routes, r.target) else r
  }

  /** `useParams().definitionId` on the calendar page the path leads to. */
  function DefinitionIdParam(routes: seq<(Pattern, Page)>, path: string): (r: Option<string>)
    ensures r.Some? ==> (Resolve(routes, path).Show? && Resolve(routes, path).page == CalendarPage
      && "definitionId" in Resolve(routes, path).params)
  {
    var routed := Resolve(routes, path);
    if routed.Show? && routed.page == CalendarPage && "definitionId" in routed.params
    then Some(routed.params["definitionId"])
    else None
  }

  /** The redirect target is the calendar, with no parameter, under either table. */
  lemma CalendarHome()
    ensures Switch(AppRoutes(), "/calendar") == Show(CalendarPage, map[])
    ensures Switch(IntendedRoutes(), "/calendar") == Show(CalendarPage, map[])
  {
    var home: string := "/calendar";
    assert home[9..] == "";
    assert home[..9] == home;
    assert Utils.LowerCase(home) == home;
  }

  /** As written, no path gives the calendar page a `definitionId`: no route
      of the table has a parameter. */
  lemma NoParamAsWritten(path: string)
    ensures DefinitionIdParam(AppRoutes(), path).None?
  {
    var routes := AppRoutes();
    CalendarHome();
    if Switch(routes, path).Show? {
      var i := if MatchPattern(routes[0].0, path).Some? then 0
        else if MatchPattern(routes[1].0, path).Some? then 1 else 2;
      assert FirstMatch(routes, path, i);
      SwitchFirst(routes, path, i);
    }
  }
}
