/**
 * The calendar page (src/pages/CalendarPage.tsx): entries grouped by their
 * exact date string, the entries shown on a day, which definition is
 * selected, and where choosing a menu item navigates to.
 */
module Calendar {
  import opened Wrappers
  import opened Entries
  import Routes
  import Utils

  /** The entries whose `date` is exactly `date`, in input order. */
  function OnDate(entries: seq<Entry>, date: string): seq<Entry> {
    if entries == [] then []
    else
      var last := entries[|entries| - 1];
      OnDate(entries[..|entries| - 1], date) + (if last.date == date then [last] else [])
  }

  /** An entry is listed under its own date and no other. */
  lemma {:induction false} OnDateMembers(entries: seq<Entry>, date: string)
    ensures forall e :: e in OnDate(entries, date) <==> e in entries && e.date == date
  {
    if entries != [] {
      var init := entries[..|entries| - 1];
      OnDateMembers(init, date);
      assert entries == init + [entries[|entries| - 1]];
    }
  }

  /** `entriesByDay`: the `reduce` that pushes each entry onto the list of
      its date in a `Map`, starting the list when the date is new. */
  method EntriesByDay(entries: seq<Entry>) returns (byDay: map<string, seq<Entry>>)
    ensures forall date :: date in byDay <==> OnDate(entries, date) != []
    ensures forall date :: date in byDay ==> byDay[date] == OnDate(entries, date)
  {
    byDay := map[];
    for i := 0 to |entries|
      invariant forall date :: date in byDay <==> OnDate(entries[..i], date) != []
      invariant forall date :: date in byDay ==> byDay[date] == OnDate(entries[..i], date)
    {
      var next := entries[i];
      assert entries[..i + 1][..i] == entries[..i];
      if next.date in byDay {
        byDay := byDay[next.date := byDay[next.date] + [next]];
      } else {
        byDay := byDay[next.date := [next]];
      }
    }
    assert entries[..|entries|] == entries;
  }

  /** `definitionId == null || e.definitionId === definitionId`. */
  predicate Shows(definitionId: Option<string>, e: Entry) {
    definitionId.None? || e.definitionId == definitionId.value
  }

  /** The entries of `list` that the selected definition shows, in order. */
  function Filter(list: seq<Entry>, definitionId: Option<string>): (r: seq<Entry>)
    ensures forall e :: e in r <==> e in list && Shows(definitionId, e)
  {
    if list == [] then []
    else
      var last := list[|list| - 1];
      Filter(list[..|list| - 1], definitionId) + (if Shows(definitionId, last) then [last] else [])
  }

  /** `getDayEntries(day)`, with the day's key as a parameter: the list of
      that date, or none, filtered to the selected definition. */
  function DayEntries(byDay: map<string, seq<Entry>>, key: string, definitionId: Option<string>): (r: seq<Entry>)
    ensures key !in byDay ==> r == []
    ensures forall e :: e in r <==> key in byDay && e in byDay[key] && Shows(definitionId, e)
  {
    var dayEntries := if key in byDay then byDay[key] else [];
    Filter(dayEntries, definitionId)
  }

  /** The entries dated `date` that the selected definition shows. */
  function OnDateFor(entries: seq<Entry>, date: string, definitionId: Option<string>): seq<Entry> {
    if entries == [] then []
    else
      var last := entries[|entries| - 1];
      OnDateFor(entries[..|entries| - 1], date, definitionId)
        + (if last.date == date && Shows(definitionId, last) then [last] else [])
  }

  lemma {:induction false} FilterOnDate(entries: seq<Entry>, date: string, definitionId: Option<string>)
    ensures Filter(OnDate(entries, date), definitionId) == OnDateFor(entries, date, definitionId)
  {
    if entries != [] {
      var init := entries[..|entries| - 1];
      var last := entries[|entries| - 1];
      FilterOnDate(init, date, definitionId);
      if last.date == date {
        var grown := OnDate(init, date) + [last];
        assert grown[..|grown| - 1] == OnDate(init, date);
      } else {
        assert OnDate(init, date) + [] == OnDate(init, date);
      }
    }
  }

  lemma {:induction false} OnDateForMembers(entries: seq<Entry>, date: string, definitionId: Option<string>)
    ensures forall e :: e in OnDateFor(entries, date, definitionId) <==>
      e in entries && e.date == date && Shows(definitionId, e)
  {
    if entries != [] {
      var init := entries[..|entries| - 1];
      OnDateForMembers(init, date, definitionId);
      assert entries == init + [entries[|entries| - 1]];
    }
  }

  /** On the grouping of `entries`, a day shows exactly the entries of that
      date that belong to the selected definition, in input order, and with
      no definition selected it shows all of them. */
  lemma DayEntriesOfGrouping(entries: seq<Entry>, byDay: map<string, seq<Entry>>,
                             key: string, definitionId: Option<string>)
    requires forall date :: date in byDay <==> OnDate(entries, date) != []
    requires forall date :: date in byDay ==> byDay[date] == OnDate(entries, date)
    ensures DayEntries(byDay, key, definitionId) == OnDateFor(entries, key, definitionId)
    ensures forall e :: e in DayEntries(byDay, key, definitionId) <==>
      e in entries && e.date == key && Shows(definitionId, e)
  {
    FilterOnDate(entries, key, definitionId);
    OnDateForMembers(entries, key, definitionId);
  }

  /** With nothing selected, `getDayEntries` is the whole list of the day. */
  lemma {:induction false} FilterNone(list: seq<Entry>)
    ensures Filter(list, None) == list
  {
    if list != [] {
      FilterNone(list[..|list| - 1]);
    }
  }

  /* ---------------------------------------------------------------------- */
  /* Selection and navigation                                                */
  /* ---------------------------------------------------------------------- */

  /** `definitions?.length ?? 0`. */
  function DefinitionCount(definitions: Option<seq<EntryDefinition>>): (n: nat)
    ensures definitions.None? ==> n == 0
    ensures definitions.Some? ==> n == |definitions.value|
  {
    if definitions.Some? then |definitions.value| else 0
  }

  /** The selected definition: the only one when there is exactly one,
      otherwise the one named in the route. */
  function SelectedDefinition(definitions: Option<seq<EntryDefinition>>, fromParams: Option<string>): (r: Option<string>)
    ensures DefinitionCount(definitions) == 1 ==> r == Some(definitions.value[0].id)
    ensures DefinitionCount(definitions) != 1 ==> r == fromParams
  {
    if DefinitionCount(definitions) == 1 then Some(definitions.value[0].id) else fromParams
  }

  /** `selectedMenuItem: definitionId ?? "all"`. */
  function SelectedMenuItem(definitionId: Option<string>): (item: string)
    ensures definitionId.Some? ==> item == definitionId.value
    ensures definitionId.None? ==> item == "all"
  {
    if definitionId.Some? then definitionId.value else "all"
  }

  /** The path `onItemChange(key)` navigates to. */
  function Route(key: string): (path: string)
    ensures |path| >= 9 && path[..9] == "/calendar"
    ensures key == "all" <==> path == "/calendar"
    ensures key != "all" ==> path[9..] == "/" + key
  {
    if key == "all" then "/calendar" else "/calendar/" + key
  }

  /** Different menu items lead to different paths, and the key can be read
      back from the path of every item but "all". */
  lemma RouteInjective(k1: string, k2: string)
    ensures Route(k1) == Route(k2) ==> k1 == k2
    ensures k1 != "all" ==> Route(k1)[..10] == "/calendar/" && Route(k1)[10..] == k1
  {
    if k1 != "all" {
      assert Route(k1)[10..] == k1;
    }
    if Route(k1) == Route(k2) && k1 != "all" && k2 != "all" {
      assert k1 == Route(k1)[10..];
      assert k2 == Route(k2)[10..];
    }
  }

  /** With a single definition the route is ignored and that definition is
      selected; otherwise the route decides, and no route means "all". */
  lemma SelectionRules(definitions: Option<seq<EntryDefinition>>, fromParams: Option<string>)
    ensures DefinitionCount(definitions) == 1 ==>
      SelectedDefinition(definitions, fromParams) == SelectedDefinition(definitions, None) == Some(definitions.value[0].id)
    ensures DefinitionCount(definitions) != 1 && fromParams.None? ==>
      SelectedMenuItem(SelectedDefinition(definitions, fromParams)) == "all"
  {
  }

  /* ---------------------------------------------------------------------- */
  /* The route parameter                                                     */
  /* ---------------------------------------------------------------------- */

  /** As src/App.tsx writes its routes, the path of every menu item but "all"
      (and the empty key) matches none of "/calendar", "/agenda" and
      "/stats", and is redirected to "/calendar". */
  lemma MenuPathRedirected(key: string)
    requires key != "" && key != "all"
    ensures Routes.Switch(Routes.AppRoutes(), Route(key)) == Routes.RedirectTo("/calendar")
    ensures Routes.Resolve(Routes.AppRoutes(), Route(key)) == Routes.Show(Routes.CalendarPage, map[])
  {
    var path := Route(key);
    var routes := Routes.AppRoutes();
    assert path[..10] == "/calendar/" && path[10..] == key;
    assert path[1] == 'c';
    assert path[9..] == "/" + key;
    Routes.LiteralMismatch(path, routes[1].0.literal, 1);
    Routes.LiteralMismatch(path, routes[2].0.literal, 1);
    Routes.CalendarHome();
  }

  /** Choosing a definition in the menu, as the routes are written, leaves
      "all" selected: the calendar page never gets a `definitionId`. */
  lemma MenuChoiceLost(definitions: Option<seq<EntryDefinition>>, key: string)
    requires DefinitionCount(definitions) > 1
    ensures SelectedMenuItem(SelectedDefinition(definitions, Routes.DefinitionIdParam(Routes.AppRoutes(), Route(key)))) == "all"
  {
    Routes.NoParamAsWritten(Route(key));
  }

  /** With the route "/calendar/:definitionId?", the menu marks the item that
      was chosen, and the calendar shows that definition's entries. Keys are
      definition ids, which hold no "/". */
  lemma MenuChoiceKept(definitions: Option<seq<EntryDefinition>>, key: string)
    requires DefinitionCount(definitions) > 1 && Routes.Segment(key)
    ensures SelectedMenuItem(SelectedDefinition(definitions, Routes.DefinitionIdParam(Routes.IntendedRoutes(), Route(key)))) == key
    ensures key != "all" ==> SelectedDefinition(definitions, Routes.DefinitionIdParam(Routes.IntendedRoutes(), Route(key))) == Some(key)
  {
    var routes := Routes.IntendedRoutes();
    Routes.CalendarHome();
    if key != "all" {
      var path := Route(key);
      assert path[..9] == "/calendar" && path[9..] == "/" + key;
      assert Utils.LowerCase(path[..9]) == "/calendar";
      Routes.MatchSegment(routes[0].0, path, key);
      assert Routes.FirstMatch(routes, path, 0);
      Routes.SwitchFirst(routes, path, 0);
    }
  }
}
