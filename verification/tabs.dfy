/** The navbar tabs, each carrying an optional `data-route` attribute and an active mark. */
module Tabs {
  import opened Wrappers

  datatype Tab = Tab(route: Option<string>, active: bool)

  /** `setActiveTab`: every tab whose `data-route` equals `route` becomes active and every
      other tab inactive; the tabs themselves are not reordered or relabelled. */
  function SetActiveTab(tabs: seq<Tab>, route: string): (r: seq<Tab>)
    ensures |r| == |tabs|
    ensures forall i :: 0 <= i < |r| ==> r[i].route == tabs[i].route
    ensures forall i :: 0 <= i < |r| ==> (r[i].active <==> tabs[i].route == Some(route))
  {
    if tabs == [] then []
    else [tabs[0].(active := tabs[0].route == Some(route))] + SetActiveTab(tabs[1..], route)
  }

  /** Only the last marking matters: earlier active marks are all overwritten. */
  lemma {:induction false} SetActiveTabLastWins(tabs: seq<Tab>, first: string, second: string)
    ensures SetActiveTab(SetActiveTab(tabs, first), second) == SetActiveTab(tabs, second)
    decreases |tabs|
  {
    if tabs != [] {
      SetActiveTabLastWins(tabs[1..], first, second);
      assert SetActiveTab(tabs, first)[1..] == SetActiveTab(tabs[1..], first);
    }
  }

  /** When exactly one tab carries `route`, exactly that tab is active afterwards. */
  lemma SingleTabActive(tabs: seq<Tab>, route: string, k: nat)
    requires k < |tabs| && tabs[k].route == Some(route)
    requires forall i :: 0 <= i < |tabs| && i != k ==> tabs[i].route != Some(route)
    ensures forall i :: 0 <= i < |tabs| ==> (SetActiveTab(tabs, route)[i].active <==> i == k)
  {
  }
}
