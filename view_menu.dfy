/**
 * The "change view" submenu and the transition a click on one of its items
 * makes: the menu lists the catalog in order, checks the entry of the current
 * view, and a click maps the item's title back to a view name.
 */
module ViewMenu {
  import opened Catalog

  /** One item added with `viewMenu.add(group, NONE, order, title)`, checkable, with its checked state. */
  datatype MenuEntry = MenuEntry(title: string, order: int, checked: bool)

  /** The item built for catalog entry `i` while `current` is the shown view. */
  function Entry(views: seq<ReportView>, i: nat, current: string): MenuEntry
    requires i < |views|
  {
    MenuEntry(views[i].desc, IndexOf(views, views[i]), views[i].name == current)
  }

  /** The submenu built for `current`, one item per catalog entry, in catalog order. */
  function Menu(views: seq<ReportView>, current: string): (m: seq<MenuEntry>)
    ensures |m| == |views|
  {
    seq(|views|, i requires 0 <= i < |views| => Entry(views, i, current))
  }

  /** Positions of the checked items. */
  function CheckedIndices(m: seq<MenuEntry>): set<nat> {
    set i: nat | i < |m| && m[i].checked
  }

  /** An item is checked exactly when its view is the current one, and is labelled with its description. */
  lemma MenuEntryChecked(views: seq<ReportView>, current: string, i: nat)
    requires i < |views|
    ensures Menu(views, current)[i].checked <==> views[i].name == current
    ensures Menu(views, current)[i].title == views[i].desc
  {
  }

  /** With distinct entries, every item's order is its catalog position. */
  lemma MenuOrderIsPosition(views: seq<ReportView>, current: string, i: nat)
    requires DistinctEntries(views) && i < |views|
    ensures Menu(views, current)[i].order == i
  {
    IndexOfEntry(views, i);
  }

  /** With distinct names, exactly the item of the current view is checked; none when the view is not in the catalog. */
  lemma ExactlyOneChecked(views: seq<ReportView>, current: string)
    requires DistinctNames(views)
    ensures IsViewName(views, current) ==>
      exists k :: 0 <= k < |views| && views[k].name == current && CheckedIndices(Menu(views, current)) == {k}
    ensures !IsViewName(views, current) ==> CheckedIndices(Menu(views, current)) == {}
  {
    var m := Menu(views, current);
    if IsViewName(views, current) {
      var k :| 0 <= k < |views| && views[k].name == current;
      forall i: nat | i < |m| ensures m[i].checked <==> i == k {
        MenuEntryChecked(views, current, i);
      }
      assert CheckedIndices(m) == {k};
    } else {
      forall i: nat | i < |m| ensures !m[i].checked {
        MenuEntryChecked(views, current, i);
      }
      assert CheckedIndices(m) == {};
    }
  }

  /** Outcome of a click: the view shown afterwards and whether it changed. */
  datatype Selection = Selection(next: string, changed: bool)

  /**
   * The click handler's decision: the view changes only to a non-empty
   * requested name that differs from the current view.
   */
  function Select(views: seq<ReportView>, current: string, title: string): (s: Selection)
    ensures s.changed <==> s.next != current
    ensures s.changed ==> s.next != "" && s.next == RequestedName(views, title)
    ensures RequestedName(views, title) != "" && RequestedName(views, title) != current ==> s.changed
  {
    var requested := RequestedName(views, title);
    if requested != "" && requested != current then Selection(requested, true)
    else Selection(current, false)
  }

  /** A title matching no description leaves the view as it was. */
  lemma SelectUnknownTitle(views: seq<ReportView>, current: string, title: string)
    requires forall j :: 0 <= j < |views| ==> views[j].desc != title
    ensures Select(views, current, title) == Selection(current, false)
  {
  }

  /** A title resolves to the name of the LAST entry with that description. */
  lemma SelectTakesLastMatch(views: seq<ReportView>, current: string, title: string, i: int)
    requires IsLastWithDesc(views, title, i)
    ensures views[i].name == "" || views[i].name == current ==> Select(views, current, title) == Selection(current, false)
    ensures views[i].name != "" && views[i].name != current ==> Select(views, current, title) == Selection(views[i].name, true)
  {
  }

  /** Clicking the same item a second time changes nothing. */
  lemma SelectIdempotent(views: seq<ReportView>, current: string, title: string)
    ensures var s := Select(views, current, title);
      Select(views, s.next, title) == Selection(s.next, false)
  {
  }

  /** From a catalog view, a click always lands on a catalog view. */
  lemma SelectStaysInCatalog(views: seq<ReportView>, current: string, title: string)
    requires IsViewName(views, current)
    ensures IsViewName(views, Select(views, current, title).next)
  {
    RequestedNameInCatalog(views, title);
  }

  /**
   * With distinct descriptions and names, clicking the item built for entry
   * `i` switches to that entry, and the rebuilt menu then checks that item alone.
   */
  lemma ClickOnItem(views: seq<ReportView>, current: string, i: nat)
    requires DistinctDescs(views) && DistinctNames(views) && i < |views|
    requires views[i].name != ""
    ensures var s := Select(views, current, Menu(views, current)[i].title);
      s.next == views[i].name && s.changed == (views[i].name != current) &&
      CheckedIndices(Menu(views, s.next)) == {i}
  {
    MenuEntryChecked(views, current, i);
    RequestedNameOfEntry(views, i);
    var next := views[i].name;
    ExactlyOneChecked(views, next);
    var k :| 0 <= k < |views| && views[k].name == next && CheckedIndices(Menu(views, next)) == {k};
    assert k == i;
  }
}
