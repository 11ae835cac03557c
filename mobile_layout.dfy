/**
 * The bottom tab bar of `MobileLayout`: the fixed, ordered tab table, the
 * active key resolved from the current pathname, and the links drawn with
 * their `isActive` flag.
 */
module MobileLayout {
  import opened Wrappers

  /**
   * A tab of the bar: its `key` and its `label`, here `title` because `label`
   * is a reserved word of Dafny (icons are presentation only and are not modelled).
   */
  datatype Tab = Tab(key: string, title: string)

  const Dashboard: string := "/dashboard"

  /** The `tabs` table, in its order. */
  const Tabs: seq<Tab> := [
    Tab("/dashboard", "仪表盘"),
    Tab("/articles", "文章"),
    Tab("/templates", "模板"),
    Tab("/calendar", "日历"),
    Tab("/settings", "设置")
  ]

  /**
   * The predicate given to `tabs.find`: the pathname equals the key, or, for
   * every tab but the dashboard, starts with it (a raw string prefix, with no
   * check for a `/` after it).
   */
  predicate Matches(t: Tab, pathname: string)
    ensures Matches(t, pathname) ==> t.key <= pathname
    ensures t.key == Dashboard ==> (Matches(t, pathname) <==> pathname == Dashboard)
  {
    pathname == t.key || (t.key != Dashboard && t.key <= pathname)
  }

  /** `Array.prototype.find`, as the index of the first tab that matches. */
  function FindTab(ts: seq<Tab>, pathname: string): (r: Option<nat>)
    ensures r.Some? ==> r.value < |ts| && Matches(ts[r.value], pathname)
    ensures r.Some? ==> forall j :: 0 <= j < r.value ==> !Matches(ts[j], pathname)
    ensures r.None? <==> forall j :: 0 <= j < |ts| ==> !Matches(ts[j], pathname)
  {
    if ts == [] then None
    else if Matches(ts[0], pathname) then Some(0)
    else match FindTab(ts[1..], pathname)
      case None => None
      case Some(i) => Some(i + 1)
  }

  /** `tabs.find(...)?.key || '/dashboard'`. */
  function ActiveKey(pathname: string): (k: string)
    ensures exists i :: 0 <= i < |Tabs| && Tabs[i].key == k
  {
    var found := match FindTab(Tabs, pathname)
      case Some(i) => Tabs[i].key
      case None => "";
    if found == "" then
      assert Tabs[0].key == Dashboard;
      Dashboard
    else found
  }

  /** The tab keys are pairwise distinct. */
  lemma KeysDistinct(i: nat, j: nat)
    requires i < |Tabs| && j < |Tabs| && Tabs[i].key == Tabs[j].key
    ensures i == j
  {
  }

  /** The second character of every key but the dashboard's tells the keys apart. */
  lemma KeyHeads(i: nat)
    requires i < |Tabs|
    ensures |Tabs[i].key| >= 2 && Tabs[i].key[0] == '/'
    ensures forall j :: 0 <= j < |Tabs| && j != i ==> Tabs[j].key[1] != Tabs[i].key[1]
  {
  }

  /** A pathname that starts with a tab key other than the dashboard's matches no earlier tab. */
  lemma NoEarlierMatch(i: nat, pathname: string, j: nat)
    requires 1 <= i < |Tabs| && Tabs[i].key <= pathname && j < i
    ensures !Matches(Tabs[j], pathname)
  {
    KeyHeads(i);
    assert pathname[1] == Tabs[i].key[1];
    assert Tabs[j].key[1] != pathname[1];
  }

  /** A pathname equal to a tab key selects that tab. */
  lemma ExactPathSelectsTab(i: nat)
    requires i < |Tabs|
    ensures ActiveKey(Tabs[i].key) == Tabs[i].key
  {
    if i >= 1 {
      forall j | 0 <= j < i
        ensures !Matches(Tabs[j], Tabs[i].key)
      {
        NoEarlierMatch(i, Tabs[i].key, j);
      }
    }
    var r := FindTab(Tabs, Tabs[i].key);
    assert r == Some(i);
  }

  /**
   * Any pathname that merely starts with a non-dashboard key selects it, with
   * no segment boundary: `/articles/42` and `/articlesX` both select `/articles`.
   */
  lemma PrefixSelectsTab(i: nat, rest: string)
    requires 1 <= i < |Tabs|
    ensures ActiveKey(Tabs[i].key + rest) == Tabs[i].key
  {
    var p := Tabs[i].key + rest;
    assert Tabs[i].key <= p;
    forall j | 0 <= j < i
      ensures !Matches(Tabs[j], p)
    {
      NoEarlierMatch(i, p, j);
    }
    assert FindTab(Tabs, p) == Some(i);
  }

  /** The dashboard tab matches only its own path, never by prefix. */
  lemma DashboardOnlyExact(pathname: string)
    ensures Matches(Tabs[0], pathname) <==> pathname == Dashboard
  {
  }

  /**
   * The result is the dashboard exactly when no other tab matches; in
   * particular every unmatched pathname (`/login`, `/`, `/dashboard/x`) falls back to it.
   */
  lemma DashboardIsFallback(pathname: string)
    ensures ActiveKey(pathname) == Dashboard <==> forall j :: 1 <= j < |Tabs| ==> !Matches(Tabs[j], pathname)
  {
    var r := FindTab(Tabs, pathname);
    if r.Some? && r.value >= 1 {
      KeyHeads(r.value);
      assert Tabs[r.value].key != Dashboard;
    }
  }

  lemma UnmatchedExamples()
    ensures ActiveKey("/login") == Dashboard
    ensures ActiveKey("/") == Dashboard
    ensures ActiveKey("/dashboard/stats") == Dashboard
  {
    DashboardIsFallback("/login");
    DashboardIsFallback("/");
    KeyHeads(0);
    assert "/dashboard/stats"[1] == Tabs[0].key[1];
    DashboardIsFallback("/dashboard/stats");
  }

  /** A link of the bar: its target and whether it is drawn as the active tab. */
  datatype NavLink = NavLink(href: string, title: string, active: bool)

  /** `tabs.map(...)`: one link per tab, `isActive` when its key is the active key. */
  function NavLinks(pathname: string): (r: seq<NavLink>)
    ensures |r| == |Tabs|
    ensures forall i :: 0 <= i < |r| ==> r[i].href == Tabs[i].key && r[i].title == Tabs[i].title
    ensures forall i :: 0 <= i < |r| ==> (r[i].active <==> Tabs[i].key == ActiveKey(pathname))
  {
    var active := ActiveKey(pathname);
    seq(|Tabs|, i requires 0 <= i < |Tabs| => NavLink(Tabs[i].key, Tabs[i].title, Tabs[i].key == active))
  }

  function CountActive(links: seq<NavLink>): nat
  {
    if links == [] then 0 else (if links[0].active then 1 else 0) + CountActive(links[1..])
  }

  lemma {:induction false} CountSingleActive(links: seq<NavLink>, k: nat)
    requires k < |links| && links[k].active
    requires forall j :: 0 <= j < |links| && j != k ==> !links[j].active
    ensures CountActive(links) == 1
  {
    if k == 0 {
      CountNoneActive(links[1..]);
    } else {
      CountSingleActive(links[1..], k - 1);
    }
  }

  lemma {:induction false} CountNoneActive(links: seq<NavLink>)
    requires forall j :: 0 <= j < |links| ==> !links[j].active
    ensures CountActive(links) == 0
  {
    if links != [] {
      CountNoneActive(links[1..]);
    }
  }

  /** Five links are drawn, one per tab in table order, and exactly one of them is active. */
  lemma OneActiveLink(pathname: string)
    ensures |NavLinks(pathname)| == 5
    ensures forall i :: 0 <= i < 5 ==> NavLinks(pathname)[i].href == Tabs[i].key
    ensures CountActive(NavLinks(pathname)) == 1
  {
    var links := NavLinks(pathname);
    var k :| 0 <= k < |Tabs| && Tabs[k].key == ActiveKey(pathname);
    forall j | 0 <= j < |links| && j != k
      ensures !links[j].active
    {
      if links[j].active {
        KeysDistinct(j, k);
      }
    }
    CountSingleActive(links, k);
  }
}
