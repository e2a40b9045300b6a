/**
 * Dashboard tab switching (static/js/dashboard.js): tab names from buttons
 * and from the URL's `tab` parameter are normalised; a recognised name
 * activates its pane, marks its button and is written back to the URL.
 * The document is modelled as the tab panes of the dashboard (id and class
 * list), the tab buttons (their data-dashboard-tab attribute, class list
 * and aria-selected) and the value of the URL's `tab` parameter.
 */
module Dashboard {
  import opened Wrappers
  import opened Text

  datatype Pane = Pane(id: string, classes: set<string>)
  datatype TabButton = TabButton(tab: Option<string>, classes: set<string>, ariaSelected: Option<string>)

  /** The names a tab can have once normalised. */
  const TabNames: set<string> := {"profile", "archive", "delete"}

  // ---------------------------------------------------------------------
  // normalizeTab and the URL spelling
  // ---------------------------------------------------------------------

  /**
   * normalizeTab: null and "" give null; otherwise the trimmed, lower-cased
   * name, with my-archive and my_archive read as archive, when it is one
   * of the three tabs.
   */
  function NormalizeTab(tabName: Option<string>): (r: Option<string>)
    ensures r.Some? ==> r.value in TabNames
  {
    if tabName.None? || tabName.value == "" then None
    else TabOf(Lower(Strip(tabName.value)))
  }

  /** The tab a trimmed, lower-cased name stands for. */
  function TabOf(clean: string): (r: Option<string>)
    ensures r.Some? ==> r.value in TabNames
  {
    if clean == "my-archive" || clean == "my_archive" then Some("archive")
    else if clean == "profile" || clean == "archive" || clean == "delete" then Some(clean)
    else None
  }

  /** setUrlTab's spelling of a tab in the URL: archive is written my-archive. */
  function UrlSpelling(tabName: string): (r: string)
    ensures tabName != "archive" ==> r == tabName
  {
    if tabName == "archive" then "my-archive" else tabName
  }

  /** A name with no upper-case letter and no white space at either end. */
  predicate Clean(s: string) {
    && s != [] && !IsSpace(s[0]) && !IsSpace(s[|s| - 1])
    && forall k :: 0 <= k < |s| ==> !('A' <= s[k] <= 'Z')
  }

  /** A clean name is its own normal form, so normalising it is TabOf. */
  lemma NormalizeClean(s: string)
    requires Clean(s)
    ensures NormalizeTab(Some(s)) == TabOf(s)
  {
    assert TrimStart(s) == s;
    assert TrimEnd(s) == s;
    assert Lower(s) == s;
  }

  /** Each tab name, and its URL spelling, is clean and stands for that tab. */
  lemma TabSpellings(t: string)
    requires t in TabNames
    ensures Clean(t) && TabOf(t) == Some(t)
    ensures Clean(UrlSpelling(t)) && TabOf(UrlSpelling(t)) == Some(t)
  {
    assert |t| != |"my-archive"|;
  }

  /**
   * The three tab names normalise to themselves, so normalising is
   * idempotent; and a tab written to the URL by setUrlTab normalises back
   * to the same tab.
   */
  lemma NormalizeTabFixedPoints(t: string)
    requires t in TabNames
    ensures NormalizeTab(Some(t)) == Some(t)
    ensures NormalizeTab(Some(UrlSpelling(t))) == Some(t)
  {
    TabSpellings(t);
    NormalizeClean(t);
    NormalizeClean(UrlSpelling(t));
  }

  /** normalizeTab is idempotent on what it returns. */
  lemma NormalizeTabIdempotent(tabName: Option<string>)
    ensures NormalizeTab(tabName).Some? ==> NormalizeTab(NormalizeTab(tabName)) == NormalizeTab(tabName)
  {
    if NormalizeTab(tabName).Some? {
      NormalizeTabFixedPoints(NormalizeTab(tabName).value);
    }
  }

  /** Case and surrounding white space do not matter, and the underscore spelling is accepted. */
  lemma NormalizeTabIgnoresCaseAndSpace()
    ensures NormalizeTab(Some(" My_Archive ")) == Some("archive")
  {
    var s := " My_Archive ";
    var t := s[1..];
    assert TrimStart(s) == t by {
      assert TrimStart(t) == t;
    }
    var u := t[..|t| - 1];
    assert TrimEnd(t) == u by {
      assert TrimEnd(u) == u;
    }
    assert Lower(u) == "my_archive";
  }

  /** Every spelling normalizeTab recognises, once trimmed and lower-cased. */
  const Spellings: set<string> := {"my-archive", "my_archive", "profile", "archive", "delete"}

  /**
   * The empty string and a missing value give null, and any other name
   * gives null exactly when its trimmed, lower-cased form is none of the
   * five recognised spellings ("orders", say).
   */
  lemma NormalizeTabRejects(name: string)
    ensures NormalizeTab(Some("")) == None && NormalizeTab(None) == None
    ensures NormalizeTab(Some(name)) == None <==> Lower(Strip(name)) !in Spellings
  {
    TabOfSpellings(Lower(Strip(name)));
    if name == "" {
      EmptyNotSpelling();
    }
  }

  /** TabOf recognises exactly the five spellings. */
  lemma TabOfSpellings(clean: string)
    ensures TabOf(clean).None? <==> clean !in Spellings
  {
  }

  lemma EmptyNotSpelling()
    ensures Lower(Strip("")) !in Spellings
  {
    assert Strip("") == "" && Lower("") == "";
  }

  // ---------------------------------------------------------------------
  // setActive as functions of the panes and buttons
  // ---------------------------------------------------------------------

  /** document.getElementById among the panes: the first with that id. */
  function PaneIndex(panes: seq<Pane>, id: string): (r: Option<nat>)
    ensures r.Some? ==> (r.value < |panes| && panes[r.value].id == id
      && forall k :: 0 <= k < r.value ==> panes[k].id != id)
    ensures r.None? ==> forall k :: 0 <= k < |panes| ==> panes[k].id != id
  {
    if panes == [] then None
    else if panes[0].id == id then Some(0)
    else
      match PaneIndex(panes[1..], id)
      case None => None
      case Some(i) => Some(i + 1)
  }

  /** One pane after setActive with the pane at `target` chosen. */
  function PaneAfter(p: Pane, isTarget: bool): Pane {
    p.(classes := (p.classes - {"active", "show"}) + (if isTarget then {"active", "show"} else {}))
  }

  function ActivatePanes(panes: seq<Pane>, target: nat): (r: seq<Pane>)
    ensures |r| == |panes|
    ensures forall k :: 0 <= k < |panes| ==> r[k] == PaneAfter(panes[k], k == target)
  {
    seq(|panes|, k requires 0 <= k < |panes| => PaneAfter(panes[k], k == target))
  }

  /** One button after setActive(tabName). */
  function ButtonAfter(b: TabButton, tabName: string): TabButton {
    var isActive := b.tab == Some(tabName);
    b.(classes := if isActive then b.classes + {"active"} else b.classes - {"active"},
       ariaSelected := Some(if isActive then "true" else "false"))
  }

  function SelectButtons(buttons: seq<TabButton>, tabName: string): (r: seq<TabButton>)
    ensures |r| == |buttons|
    ensures forall k :: 0 <= k < |buttons| ==> r[k] == ButtonAfter(buttons[k], tabName)
  {
    seq(|buttons|, k requires 0 <= k < |buttons| => ButtonAfter(buttons[k], tabName))
  }

  /**
   * After setActive exactly the target pane carries active and show, every
   * pane keeps its other classes, and a button is active with
   * aria-selected "true" exactly when its attribute is the tab's name.
   */
  lemma SetActiveSpec(panes: seq<Pane>, buttons: seq<TabButton>, tabName: string, target: nat)
    requires target < |panes|
    ensures var ps := ActivatePanes(panes, target);
      forall k :: 0 <= k < |ps| ==>
        && ps[k].id == panes[k].id
        && ("active" in ps[k].classes <==> k == target)
        && ("show" in ps[k].classes <==> k == target)
        && (forall c :: c != "active" && c != "show" ==> (c in ps[k].classes <==> c in panes[k].classes))
    ensures var bs := SelectButtons(buttons, tabName);
      forall k :: 0 <= k < |bs| ==>
        && bs[k].tab == buttons[k].tab
        && ("active" in bs[k].classes <==> buttons[k].tab == Some(tabName))
        && (bs[k].ariaSelected == Some("true") <==> buttons[k].tab == Some(tabName))
        && (forall c :: c != "active" ==> (c in bs[k].classes <==> c in buttons[k].classes))
  {
  }

  class Dashboard {
    var panes: seq<Pane>
    var buttons: seq<TabButton>
    var tabParam: Option<string>

    constructor (ps: seq<Pane>, bs: seq<TabButton>, urlTab: Option<string>)
      ensures panes == ps && buttons == bs && tabParam == urlTab
    {
      panes := ps;
      buttons := bs;
      tabParam := urlTab;
    }

    /** setActive: nothing without a pane of that id; else switch the panes, then the buttons. */
    method SetActive(tabName: string)
      modifies this`panes, this`buttons
      ensures match PaneIndex(old(panes), tabName)
        case None => panes == old(panes) && buttons == old(buttons)
        case Some(target) =>
          panes == ActivatePanes(old(panes), target) && buttons == SelectButtons(old(buttons), tabName)
    {
      var found := PaneIndex(panes, tabName);
      if found.None? {
        return;
      }
      var target := found.value;
      ghost var ps0 := panes;
      var i := 0;
      while i < |panes|
        invariant 0 <= i <= |panes| == |ps0|
        invariant forall k :: 0 <= k < i ==> panes[k] == PaneAfter(ps0[k], false)
        invariant forall k :: i <= k < |panes| ==> panes[k] == ps0[k]
        invariant buttons == old(buttons)
      {
        panes := panes[i := PaneAfter(panes[i], false)];
        i := i + 1;
      }
      assert PaneAfter(panes[target], false).(classes := panes[target].classes + {"active", "show"})
        == PaneAfter(ps0[target], true);
      panes := panes[target := panes[target].(classes := panes[target].classes + {"active", "show"})];
      assert panes == ActivatePanes(ps0, target);
      ghost var bs0 := buttons;
      var j := 0;
      while j < |buttons|
        invariant 0 <= j <= |buttons| == |bs0|
        invariant forall k :: 0 <= k < j ==> buttons[k] == ButtonAfter(bs0[k], tabName)
        invariant forall k :: j <= k < |buttons| ==> buttons[k] == bs0[k]
        invariant panes == ActivatePanes(ps0, target)
      {
        buttons := buttons[j := ButtonAfter(buttons[j], tabName)];
        j := j + 1;
      }
      assert forall k :: 0 <= k < |buttons| ==> buttons[k] == SelectButtons(bs0, tabName)[k];
    }

    /** setUrlTab: the URL's tab parameter becomes the tab's URL spelling. */
    method SetUrlTab(tabName: string)
      modifies this`tabParam
      ensures tabParam == Some(UrlSpelling(tabName))
    {
      tabParam := Some(if tabName == "archive" then "my-archive" else tabName);
    }

    /** The click handler of button `b`: an unrecognised tab changes nothing and is not prevented. */
    method OnClick(b: nat) returns (prevented: bool)
      requires b < |buttons|
      modifies this`panes, this`buttons, this`tabParam
      ensures var t := NormalizeTab(old(buttons)[b].tab);
        && (prevented <==> t.Some?)
        && (t.None? ==> panes == old(panes) && buttons == old(buttons) && tabParam == old(tabParam))
        && (t.Some? ==> tabParam == Some(UrlSpelling(t.value)))
        && (t.Some? && PaneIndex(old(panes), t.value).None? ==> panes == old(panes) && buttons == old(buttons))
        && (t.Some? && PaneIndex(old(panes), t.value).Some? ==>
              panes == ActivatePanes(old(panes), PaneIndex(old(panes), t.value).value)
              && buttons == SelectButtons(old(buttons), t.value))
    {
      var tabName := NormalizeTab(buttons[b].tab);
      if tabName.None? {
        return false;
      }
      SetActive(tabName.value);
      SetUrlTab(tabName.value);
      prevented := true;
    }

    /**
     * initDashboardTabs' last step: a recognised tab in the URL is
     * activated and written back; anything else, or a page without the
     * dashboard container or without buttons, changes nothing.
     */
    method ApplyUrlTab(hasContainer: bool)
      modifies this`panes, this`buttons, this`tabParam
      ensures var t := NormalizeTab(old(tabParam));
        && (!hasContainer || old(buttons) == [] || t.None? ==>
              panes == old(panes) && buttons == old(buttons) && tabParam == old(tabParam))
        && (hasContainer && old(buttons) != [] && t.Some? ==> tabParam == Some(UrlSpelling(t.value)))
        && (hasContainer && old(buttons) != [] && t.Some? && PaneIndex(old(panes), t.value).None? ==>
              panes == old(panes) && buttons == old(buttons))
        && (hasContainer && old(buttons) != [] && t.Some? && PaneIndex(old(panes), t.value).Some? ==>
              panes == ActivatePanes(old(panes), PaneIndex(old(panes), t.value).value)
              && buttons == SelectButtons(old(buttons), t.value))
    {
      if !hasContainer || |buttons| == 0 {
        return;
      }
      var urlTab := NormalizeTab(tabParam);
      if urlTab.Some? {
        SetActive(urlTab.value);
        SetUrlTab(urlTab.value);
      }
    }
  }
}
