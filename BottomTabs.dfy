/**
 * The curved bottom tab bar: which routes get a tab, how the tabs are split
 * around the centre button, which tab is focused, what pressing a tab does,
 * and how tall the white fill under the bar is.
 */
module BottomTabs {
  import opened Text

  /** A navigator route: its unique key and its screen name. */
  datatype Route = Route(key: string, name: string)

  /** The navigator's state: its routes in order and the index of the focused one. */
  datatype NavState = NavState(routes: seq<Route>, index: int)

  /** What pressing a tab leads to. */
  datatype PressOutcome = Stay | NavigateTo(name: string)

  /** The route served by the centre button, which has no tab of its own. */
  const HiddenRouteName: string := "QuickAction"
  /** Number of tabs left of the centre button. */
  const LeftCount: nat := 2
  /** Smallest height of the fill under the bar. */
  const MinBottomFill: real := 20.0

  /** `state.routes.filter((r) => r.name !== 'QuickAction')`. */
  function VisibleRoutes(routes: seq<Route>): (r: seq<Route>)
    ensures IsSubsequence(r, routes)
    ensures forall i | 0 <= i < |r| :: r[i].name != HiddenRouteName
    ensures |r| <= |routes|
  {
    if routes == [] then []
    else
      var rest := VisibleRoutes(routes[1..]);
      if routes[0].name != HiddenRouteName then [routes[0]] + rest else rest
  }

  /** A route gets a tab exactly when it is one of the routes and is not the hidden one. */
  lemma {:induction false} VisibleRoutesMembers(routes: seq<Route>, x: Route)
    ensures x in VisibleRoutes(routes) <==> x in routes && x.name != HiddenRouteName
  {
    if routes != [] {
      VisibleRoutesMembers(routes[1..], x);
      assert routes == [routes[0]] + routes[1..];
    }
  }

  /** Without a hidden route, every route gets a tab, in order. */
  lemma {:induction false} VisibleRoutesNoHidden(routes: seq<Route>)
    requires forall i | 0 <= i < |routes| :: routes[i].name != HiddenRouteName
    ensures VisibleRoutes(routes) == routes
  {
    if routes != [] {
      VisibleRoutesNoHidden(routes[1..]);
    }
  }

  /** Removing the hidden route twice is removing it once. */
  lemma VisibleRoutesIdempotent(routes: seq<Route>)
    ensures VisibleRoutes(VisibleRoutes(routes)) == VisibleRoutes(routes)
  {
    VisibleRoutesNoHidden(VisibleRoutes(routes));
  }

  /** `visibleRoutes.slice(0, 2)`: JavaScript clamps the end to the length. */
  function LeftTabs(visible: seq<Route>): (r: seq<Route>)
    ensures |r| == if |visible| < LeftCount then |visible| else LeftCount
  {
    if |visible| < LeftCount then visible else visible[..LeftCount]
  }

  /** `visibleRoutes.slice(2)`: empty when there are two routes or fewer. */
  function RightTabs(visible: seq<Route>): (r: seq<Route>)
    ensures |r| == if |visible| < LeftCount then 0 else |visible| - LeftCount
  {
    if |visible| < LeftCount then [] else visible[LeftCount..]
  }

  /** The two groups together are exactly the visible routes, in order. */
  lemma TabsPartition(visible: seq<Route>)
    ensures LeftTabs(visible) + RightTabs(visible) == visible
    ensures |LeftTabs(visible)| <= LeftCount
    ensures |RightTabs(visible)| > 0 ==> |LeftTabs(visible)| == LeftCount
  {
    if |visible| >= LeftCount {
      assert visible[..LeftCount] + visible[LeftCount..] == visible;
    }
  }

  /** `state.routes.findIndex((r) => r.key === key)`: the first match, or -1. */
  function FindIndexByKey(routes: seq<Route>, key: string): (i: int)
    ensures -1 <= i < |routes|
    ensures i >= 0 ==> routes[i].key == key && forall j | 0 <= j < i :: routes[j].key != key
    ensures i == -1 ==> forall j | 0 <= j < |routes| :: routes[j].key != key
  {
    if routes == [] then -1
    else if routes[0].key == key then 0
    else
      var i := FindIndexByKey(routes[1..], key);
      if i == -1 then -1 else i + 1
  }

  /** `isFocused`: the route's position in the state, found by key, is the state's index. */
  predicate IsFocused(state: NavState, route: Route) {
    state.index == FindIndexByKey(state.routes, route.key)
  }

  /**
   * With unique keys, the tab at position `i` of the state is focused exactly
   * when `i` is the state's index.
   */
  lemma FocusedIffIndex(state: NavState, i: nat)
    requires i < |state.routes|
    requires forall a, b | 0 <= a < b < |state.routes| :: state.routes[a].key != state.routes[b].key
    ensures IsFocused(state, state.routes[i]) <==> state.index == i
  {
    var found := FindIndexByKey(state.routes, state.routes[i].key);
    assert found == i;
  }

  /** With unique keys, at most one route of the state is focused. */
  lemma AtMostOneFocused(state: NavState, i: nat, j: nat)
    requires i < |state.routes| && j < |state.routes|
    requires forall a, b | 0 <= a < b < |state.routes| :: state.routes[a].key != state.routes[b].key
    requires IsFocused(state, state.routes[i]) && IsFocused(state, state.routes[j])
    ensures i == j
  {
    FocusedIffIndex(state, i);
    FocusedIffIndex(state, j);
  }

  /**
   * A tab's `onPress`: navigate to its route unless the tab is already
   * focused or a listener prevented the default action of the tabPress event.
   */
  function PressTab(state: NavState, route: Route, defaultPrevented: bool): (o: PressOutcome)
    ensures o.NavigateTo? <==> !IsFocused(state, route) && !defaultPrevented
    ensures o.NavigateTo? ==> o.name == route.name
  {
    if !IsFocused(state, route) && !defaultPrevented then NavigateTo(route.name) else Stay
  }

  /** `Math.max(insets.bottom, 20)`. */
  function BottomFillHeight(insetBottom: real): (h: real)
    ensures h >= MinBottomFill && h >= insetBottom
    ensures h == MinBottomFill || h == insetBottom
  {
    if insetBottom >= MinBottomFill then insetBottom else MinBottomFill
  }

  /**
   * With exactly one hidden route, at position `h`, the tabs are all the
   * other routes, in order.
   */
  lemma {:induction false} VisibleRoutesDropsOne(routes: seq<Route>, h: nat)
    requires h < |routes| && routes[h].name == HiddenRouteName
    requires forall i | 0 <= i < |routes| && i != h :: routes[i].name != HiddenRouteName
    ensures VisibleRoutes(routes) == routes[..h] + routes[h + 1..]
  {
    var tail := routes[1..];
    forall i | 0 <= i < |tail| && i + 1 != h ensures tail[i].name != HiddenRouteName {
      assert tail[i] == routes[i + 1];
    }
    if h == 0 {
      VisibleRoutesNoHidden(tail);
      assert VisibleRoutes(routes) == VisibleRoutes(tail);
    } else {
      VisibleRoutesDropsOne(tail, h - 1);
      assert VisibleRoutes(routes) == [routes[0]] + (tail[..h - 1] + tail[h..]);
      assert routes[..h] == [routes[0]] + tail[..h - 1];
      assert routes[h + 1..] == tail[h..];
    }
  }

  /**
   * The app's tab navigator declares Home, Booking, the hidden QuickAction,
   * Inbox and Profile, in that order. Whatever keys the navigator generates,
   * the bar shows Home and Booking left of the centre button and Inbox and
   * Profile right of it.
   */
  lemma AppTabLayout(routes: seq<Route>)
    requires |routes| == 5
    requires routes[0].name == "Home" && routes[1].name == "Booking"
    requires routes[2].name == "QuickAction"
    requires routes[3].name == "Inbox" && routes[4].name == "Profile"
    ensures LeftTabs(VisibleRoutes(routes)) == routes[..2]
    ensures RightTabs(VisibleRoutes(routes)) == routes[3..]
  {
    VisibleRoutesDropsOne(routes, 2);
    var v := VisibleRoutes(routes);
    assert v[..LeftCount] == routes[..2];
    assert v[LeftCount..] == routes[3..];
  }
}
