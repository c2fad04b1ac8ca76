/** The controller (`PinItController`): the user commands, forwarded to the
    model. The active editor is passed in as the path of its document, or
    `None` when no editor is active. */
module PinItController {
  import opened Wrappers
  import opened Sequences
  import opened PinItems
  import opened PinItModel
  import opened PinItProperties

  /** `addPinItem()`: pins the active editor's file; with no active editor
      nothing happens. */
  function AddPinItem(s: State, activePath: Option<string>): (r: State)
    ensures activePath.None? ==> r == s
    ensures activePath.Some? ==>
      && r.pins == Some(s.pins.GetOr([]) + [activePath.value])
      && GetChildren(r, None)
         == GetChildren(s, None) + (if activePath.value == "" then [] else [MakeItem(activePath.value)])
      && (r.events > s.events <==> s.pins.Some?)
      && r.events == s.events + (if s.pins.Some? then 1 else 0)
  {
    match activePath
    case None => s
    case Some(path) =>
      AddThenChildren(s, MakeItem(path));
      assert AddItem(s, MakeItem(path)).pins.value == s.pins.GetOr([]) + [path];
      AddItem(s, MakeItem(path))
  }

  /** `removePinItem(item)`: when the list exists, it stays present, loses
      every copy of the item's path and keeps every other entry (empty strings
      included) in order; the view loses exactly that path and a notification
      fires. Otherwise nothing happens. */
  function RemovePinItem(s: State, item: PinItem): (r: State)
    ensures s.pins.None? ==> r == s
    ensures s.pins.Some? ==>
      && r.pins.Some?
      && multiset(r.pins.value) == multiset(s.pins.value)[item.filepath := 0]
      && Subsequence(r.pins.value, s.pins.value)
      && Shown(r) == Without(Shown(s), item.filepath)
      && r.events == s.events + 1
  {
    if s.pins.Some? then
      RemoveThenChildren(s, item);
      RemoveItem(s, item)
    else
      RemoveItem(s, item)
  }

  /** `clearPinItems()`: the list becomes present and empty, so the view is
      empty, and a notification fires. */
  function ClearPinItems(s: State): (r: State)
    ensures r.pins == Some([])
    ensures GetChildren(r, None) == []
    ensures r.events == s.events + 1
  {
    ClearItems(s)
  }
}
