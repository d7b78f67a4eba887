/**
 * The filter buttons above the home page's question list. The active filter
 * starts as the URL's `filter` parameter; clicking the active filter clears
 * it and removes the parameter, clicking another one selects it and writes it
 * into the query. Every click pushes one new URL.
 *
 * The URL helpers (`formUrlQuery`, `removeKeysFromUrlQuery`) are not part of
 * this model: a pushed URL is recorded as the request made to them.
 */
module HomeFilter {
  import opened Model

  /** The call that produced a pushed URL, with the query string it was given. */
  datatype UrlRequest =
    | RemoveKeys(params: string, keysToRemove: seq<string>)
    | FormQuery(params: string, key: string, value: string)

  /** The four filter values, in button order. */
  const Filters: seq<string> := ["newest", "popular", "unanswered", "recommended"]

  /** `String.prototype.toLowerCase` on one character, for ASCII letters. */
  function LowerChar(c: char): (r: char)
    ensures 'A' <= c <= 'Z' ==> r as int == c as int + 32
    ensures !('A' <= c <= 'Z') ==> r == c
  {
    if 'A' <= c <= 'Z' then (c as int + 32) as char else c
  }

  function Lower(s: string): (r: string)
    ensures |r| == |s|
    ensures forall i :: 0 <= i < |s| ==> r[i] == LowerChar(s[i])
  {
    if s == [] then [] else [LowerChar(s[0])] + Lower(s[1..])
  }

  /** A text without upper-case ASCII letters is its own lower case. */
  lemma LowerFixed(s: string)
    requires forall i :: 0 <= i < |s| ==> !('A' <= s[i] <= 'Z')
    ensures Lower(s) == s
  {
  }

  /** The filter values are written in lower case, so the query carries them verbatim. */
  lemma FiltersAreLowerCase()
    ensures forall i :: 0 <= i < |Filters| ==> Lower(Filters[i]) == Filters[i]
  {
    forall i | 0 <= i < |Filters| ensures Lower(Filters[i]) == Filters[i] {
      LowerFixed(Filters[i]);
    }
  }

  /** `filterParams || ''`: the parameter when it is a non-empty string, otherwise ''. */
  function InitialActive(filterParam: Option<string>): (r: string)
    ensures filterParam.Some? ==> r == filterParam.value
    ensures filterParam.None? ==> r == ""
  {
    if filterParam.Some? && filterParam.value != "" then filterParam.value else ""
  }

  /** The active filter after a click on `filter`. */
  function NextActive(active: string, filter: string): (r: string)
    ensures r == "" <==> filter == active || filter == ""
    ensures r != "" ==> r == filter
  {
    if filter == active then "" else filter
  }

  /** The URL a click on `filter` pushes, given the current query string. */
  function ClickRequest(active: string, filter: string, params: string): (r: UrlRequest)
    ensures r.params == params
    ensures r.RemoveKeys? <==> filter == active
    ensures r.RemoveKeys? ==> r.keysToRemove == ["filter"]
    ensures r.FormQuery? ==> r.key == "filter" && r.value == Lower(filter)
  {
    if filter == active then RemoveKeys(params, ["filter"]) else FormQuery(params, "filter", Lower(filter))
  }

  /**
   * Two clicks on the same filter bring the active filter back exactly when
   * it started as that filter or as none; from another filter they end with
   * none selected.
   */
  lemma TwoClicksRestore(active: string, filter: string)
    ensures NextActive(NextActive(active, filter), filter) == active <==> active == filter || active == ""
    ensures active != filter && active != "" ==> NextActive(NextActive(active, filter), filter) == ""
  {
  }

  /** After a click on one of the buttons, that button alone is highlighted, or none is. */
  lemma HighlightAfterClick(active: string, k: nat)
    requires k < |Filters|
    ensures var next := NextActive(active, Filters[k]);
      && (active == Filters[k] ==> forall i :: 0 <= i < |Filters| ==> Filters[i] != next)
      && (active != Filters[k] ==> forall i :: 0 <= i < |Filters| ==> (Filters[i] == next <==> i == k))
  {
  }

  class FilterBar {
    /** The `active` state. */
    var active: string
    /** Every URL pushed to the router, oldest first. */
    var pushed: seq<UrlRequest>

    /** `useState(filterParams || '')`; nothing has been pushed yet. */
    constructor (filterParam: Option<string>)
      ensures active == InitialActive(filterParam) && pushed == []
    {
      active := InitialActive(filterParam);
      pushed := [];
    }

    /** `handleTypeClick(filter)`, with `params` the query string at the time of the click. */
    method HandleTypeClick(filter: string, params: string)
      modifies this
      ensures active == NextActive(old(active), filter)
      ensures pushed == old(pushed) + [ClickRequest(old(active), filter, params)]
    {
      var newUrl: UrlRequest;
      if filter == active {
        active := "";
        newUrl := RemoveKeys(params, ["filter"]);
      } else {
        active := filter;
        newUrl := FormQuery(params, "filter", Lower(filter));
      }
      pushed := pushed + [newUrl];
    }
  }

  /** Clicking the same button twice leaves two URLs and, from no filter, no filter selected. */
  method ClickTwice(bar: FilterBar, filter: string, p1: string, p2: string)
    requires filter != ""
    modifies bar
    ensures |bar.pushed| == |old(bar.pushed)| + 2
    ensures old(bar.active) == "" ==> bar.active == ""
    ensures old(bar.active) == "" ==> bar.pushed[|bar.pushed| - 2].FormQuery? && bar.pushed[|bar.pushed| - 1].RemoveKeys?
  {
    bar.HandleTypeClick(filter, p1);
    bar.HandleTypeClick(filter, p2);
    TwoClicksRestore(old(bar.active), filter);
  }
}
