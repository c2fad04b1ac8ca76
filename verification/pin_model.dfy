/** The pin list model (`PinItModel`): one workspace slot "pins" holding an
    insertion-ordered list of paths, the tree children derived from it, and
    the change notification raised by the mutations.

    The slot is `None` when it was never written and `Some(list)` once any
    mutation ran; `Some([])` is present-but-empty, which is how an empty
    JavaScript array (truthy) behaves. The event emitter is a counter of
    notifications fired so far. */
module PinItModel {
  import opened Wrappers
  import opened Sequences
  import opened PinItems

  /** The slot's contents and the number of change notifications fired. */
  datatype State = State(pins: Option<seq<string>>, events: nat)

  /** The state of a workspace where nothing was ever pinned. */
  const Initial: State := State(None, 0)

  /** `getChildren(element)`: no children under an item; for the root, one item
      per truthy (non-empty) stored path, in stored order; nothing when the
      slot is absent. */
  function GetChildren(s: State, element: Option<PinItem>): (items: seq<PinItem>)
    ensures element.Some? || s.pins.None? ==> items == []
    ensures forall k :: 0 <= k < |items| ==>
      && s.pins.Some?
      && items[k].filepath != ""
      && items[k].filepath in s.pins.value
      && Derived(items[k])
  {
    if element.Some? then []
    else
      match s.pins
      case None => []
      case Some(stored) => Items(Without(stored, ""))
  }

  /** The paths the tree view shows for the root. */
  function Shown(s: State): seq<string> {
    Filepaths(GetChildren(s, None))
  }

  /** One step of the `forEach` loop: entry `i` adds its item exactly when
      it is truthy. */
  lemma ChildrenStep(stored: seq<string>, i: nat)
    requires i < |stored|
    ensures Items(Without(stored[..i + 1], ""))
         == Items(Without(stored[..i], "")) + (if stored[i] == "" then [] else [MakeItem(stored[i])])
  {
    assert stored[..i + 1] == stored[..i] + [stored[i]];
    WithoutSnoc(stored[..i], stored[i], "");
    if stored[i] != "" {
      ItemsSnoc(Without(stored[..i], ""), stored[i]);
    }
  }

  /** The `forEach` loop of `getChildren`/`refresh`, step by step. */
  method CollectChildren(s: State, element: Option<PinItem>) returns (items: seq<PinItem>)
    ensures items == GetChildren(s, element)
  {
    items := [];
    if element.Some? || s.pins.None? {
      return;
    }
    var stored := s.pins.value;
    var i := 0;
    while i < |stored|
      invariant 0 <= i <= |stored|
      invariant items == Items(Without(stored[..i], ""))
    {
      ChildrenStep(stored, i);
      if stored[i] != "" {
        items := items + [MakeItem(stored[i])];
      }
      i := i + 1;
    }
    assert stored[..i] == stored;
  }

  /** `refresh()`: re-reads the same children and fires one notification;
      the stored list is untouched. */
  function Refresh(s: State): (r: (State, seq<PinItem>))
    ensures r.0.pins == s.pins
    ensures r.0.events == s.events + 1
    ensures r.1 == GetChildren(s, None)
  {
    (State(s.pins, s.events + 1), GetChildren(s, None))
  }

  /** `addItem(element)`: appends the path. On a present list the earlier
      entries stay where they were and `refresh` fires; on an absent slot the
      list becomes the single path and nothing is fired. */
  function AddItem(s: State, item: PinItem): (r: State)
    ensures r.pins.Some?
    ensures s.pins.None? ==> r.pins.value == [item.filepath]
    ensures s.pins.Some? ==>
      && |r.pins.value| == |s.pins.value| + 1
      && r.pins.value[..|s.pins.value|] == s.pins.value
      && r.pins.value[|s.pins.value|] == item.filepath
    ensures r.events > s.events <==> s.pins.Some?
    ensures r.events == s.events + (if s.pins.Some? then 1 else 0)
  {
    match s.pins
    case Some(stored) => Refresh(State(Some(stored + [item.filepath]), s.events)).0
    case None => State(Some([item.filepath]), s.events)
  }

  /** `removeItem(element)`: on a present list, keeps every entry that is not
      exactly the path (empty strings included), in order, and fires; on an
      absent slot, changes nothing and fires nothing. */
  function RemoveItem(s: State, item: PinItem): (r: State)
    ensures s.pins.None? ==> r == s
    ensures s.pins.Some? ==>
      && r.pins.Some?
      && item.filepath !in r.pins.value
      && Subsequence(r.pins.value, s.pins.value)
      && multiset(r.pins.value) == multiset(s.pins.value)[item.filepath := 0]
      && r.events == s.events + 1
  {
    match s.pins
    case None => s
    case Some(stored) =>
      WithoutCount(stored, item.filepath);
      WithoutSubsequence(stored, item.filepath);
      Refresh(State(Some(Without(stored, item.filepath)), s.events)).0
  }

  /** `Clearitems()`: the slot becomes present and empty, whatever it was,
      and one notification fires. */
  function ClearItems(s: State): (r: State)
    ensures r.pins == Some([])
    ensures r.events == s.events + 1
  {
    Refresh(State(Some([]), s.events)).0
  }

  /** Pins `paths` one after another through `addItem`. */
  function AddAll(s: State, paths: seq<string>): State
    decreases |paths|
  {
    if |paths| == 0 then s
    else AddItem(AddAll(s, paths[..|paths| - 1]), MakeItem(paths[|paths| - 1]))
  }
}
