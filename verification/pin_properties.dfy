/** Properties relating the pin model's operations to one another and to the
    tree view they feed. */
module PinItProperties {
  import opened Wrappers
  import opened Sequences
  import opened PinItems
  import opened PinItModel

  // ---------------------------------------------------------------------
  // The view
  // ---------------------------------------------------------------------

  /** The root shows the truthy stored paths, and each item is built from
      its path. */
  lemma ShownIsTruthyEntries(s: State)
    requires s.pins.Some?
    ensures Shown(s) == Without(s.pins.value, "")
    ensures forall k :: 0 <= k < |GetChildren(s, None)| ==>
      GetChildren(s, None)[k] == MakeItem(Shown(s)[k])
  {
    FilepathsOfItems(Without(s.pins.value, ""));
  }

  /** One item per non-empty entry: the view's length is the list's length
      minus the number of empty strings in it. */
  lemma ChildrenCount(stored: seq<string>, events: nat)
    ensures |GetChildren(State(Some(stored), events), None)| == |stored| - multiset(stored)[""]
  {
    WithoutLength(stored, "");
  }

  /** Duplicates are kept: every non-empty path is shown as often as it is
      stored, and the empty string never. */
  lemma ChildrenKeepDuplicates(stored: seq<string>, events: nat)
    ensures multiset(Shown(State(Some(stored), events))) == multiset(stored)["" := 0]
  {
    ShownIsTruthyEntries(State(Some(stored), events));
    WithoutCount(stored, "");
  }

  /** Stored order is display order: the view of a concatenated list is the
      view of the first part followed by the view of the second. */
  lemma ChildrenInStoredOrder(a: seq<string>, b: seq<string>, events: nat)
    ensures GetChildren(State(Some(a + b), events), None)
         == GetChildren(State(Some(a), events), None) + GetChildren(State(Some(b), events), None)
  {
    WithoutConcat(a, b, "");
    ItemsConcat(Without(a, ""), Without(b, ""));
  }

  /** A path is shown exactly when it is a non-empty stored entry. */
  lemma ShownMembership(s: State, p: string)
    requires s.pins.Some?
    ensures p in Shown(s) <==> p != "" && p in s.pins.value
  {
    ShownIsTruthyEntries(s);
  }

  // ---------------------------------------------------------------------
  // addItem
  // ---------------------------------------------------------------------

  /** After `addItem`, the view is the old view plus the new item at the end,
      unless the path is empty, which is stored but never shown. */
  lemma AddThenChildren(s: State, item: PinItem)
    ensures GetChildren(AddItem(s, item), None)
         == GetChildren(s, None) + (if item.filepath == "" then [] else [MakeItem(item.filepath)])
  {
    var stored := s.pins.GetOr([]);
    assert AddItem(s, item).pins.value == stored + [item.filepath];
    WithoutSnoc(stored, item.filepath, "");
    if item.filepath != "" {
      ItemsSnoc(Without(stored, ""), item.filepath);
    }
  }

  /** The first `addItem` on an absent slot fires nothing; every later one
      fires exactly once. */
  lemma AddNotifiesOnlyWhenPresent(s: State, a: PinItem, b: PinItem)
    requires s.pins.None?
    ensures AddItem(s, a).events == s.events
    ensures AddItem(AddItem(s, a), b).events == s.events + 1
  {
  }

  /** Pinning a sequence of paths one by one. From a present list the paths
      are appended in order with one notification each; from an absent slot
      the list becomes the paths and the first add is silent. */
  lemma {:induction false} AddAllStores(s: State, paths: seq<string>)
    ensures s.pins.Some? ==>
      AddAll(s, paths) == State(Some(s.pins.value + paths), s.events + |paths|)
    ensures s.pins.None? && |paths| > 0 ==>
      AddAll(s, paths) == State(Some(paths), s.events + |paths| - 1)
    decreases |paths|
  {
    if |paths| > 0 {
      var init := paths[..|paths| - 1];
      var last := paths[|paths| - 1];
      assert paths == init + [last];
      AddAllStores(s, init);
      assert AddAll(s, paths) == AddItem(AddAll(s, init), MakeItem(last));
      if s.pins.Some? {
        assert s.pins.value + paths == (s.pins.value + init) + [last];
      } else if |init| == 0 {
        assert AddAll(s, init) == s;
      }
    } else if s.pins.Some? {
      assert s.pins.value + paths == s.pins.value;
    }
  }

  /** Starting from a workspace with nothing pinned, adding any paths in turn
      makes the view show every non-empty one of them, in order, duplicates
      included. */
  lemma AddAllThenChildren(paths: seq<string>)
    ensures Shown(AddAll(Initial, paths)) == Without(paths, "")
  {
    AddAllStores(Initial, paths);
    if |paths| > 0 {
      ShownIsTruthyEntries(AddAll(Initial, paths));
    }
  }

  // ---------------------------------------------------------------------
  // removeItem
  // ---------------------------------------------------------------------

  /** The view after `removeItem` is the old view without that path. */
  lemma RemoveThenChildren(s: State, item: PinItem)
    requires s.pins.Some?
    ensures Shown(RemoveItem(s, item)) == Without(Shown(s), item.filepath)
  {
    var r := RemoveItem(s, item);
    assert r.pins == Some(Without(s.pins.value, item.filepath));
    ShownIsTruthyEntries(s);
    ShownIsTruthyEntries(r);
    WithoutCommute(s.pins.value, item.filepath, "");
  }

  /** Removing a path that is not stored rewrites the same list and still
      fires the notification. */
  lemma RemoveMissingPath(s: State, item: PinItem)
    requires s.pins.Some? && item.filepath !in s.pins.value
    ensures RemoveItem(s, item) == State(s.pins, s.events + 1)
  {
    WithoutAbsent(s.pins.value, item.filepath);
  }

  /** Removing the same path twice stores what removing it once stored. */
  lemma RemoveIdempotent(s: State, item: PinItem)
    ensures RemoveItem(RemoveItem(s, item), item).pins == RemoveItem(s, item).pins
  {
    if s.pins.Some? {
      WithoutIdempotent(s.pins.value, item.filepath);
    }
  }

  /** Removing a path just added takes away every copy of it, the new one and
      any older ones, and nothing else. */
  lemma AddThenRemove(s: State, item: PinItem)
    ensures RemoveItem(AddItem(s, item), item).pins
         == Some(Without(s.pins.GetOr([]), item.filepath))
  {
    var stored := s.pins.GetOr([]);
    var added := AddItem(s, item);
    assert added.pins.value == stored + [item.filepath];
    assert RemoveItem(added, item).pins == Some(Without(stored + [item.filepath], item.filepath));
    WithoutSnoc(stored, item.filepath, item.filepath);
    assert Without(stored, item.filepath) + [] == Without(stored, item.filepath);
  }

  // ---------------------------------------------------------------------
  // Clearitems and refresh
  // ---------------------------------------------------------------------

  /** Clearing twice stores the same empty list as clearing once, and the
      second clear still notifies. */
  lemma ClearIdempotent(s: State)
    ensures ClearItems(ClearItems(s)).pins == ClearItems(s).pins
    ensures ClearItems(ClearItems(s)).events == ClearItems(s).events + 1
  {
  }

  /** After a clear the view is empty, and the slot is present rather than
      absent, so a following add notifies. */
  lemma ClearThenChildren(s: State, item: PinItem)
    ensures GetChildren(ClearItems(s), None) == []
    ensures AddItem(ClearItems(s), item).events == s.events + 2
  {
  }

  /** Refreshing does not change what the view shows. */
  lemma RefreshKeepsChildren(s: State)
    ensures GetChildren(Refresh(s).0, None) == GetChildren(s, None)
  {
  }
}
