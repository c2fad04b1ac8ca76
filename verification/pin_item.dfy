/** A pinned file: its path and the display name derived from it. */
module PinItems {
  import opened PosixPath

  /** `filename` is the tree label; it is never stored, only derived. */
  datatype PinItem = PinItem(filepath: string, filename: string)

  /** The `PinItem` constructor: the label is the last segment of the path. */
  function MakeItem(path: string): (item: PinItem)
    ensures item.filepath == path
    ensures Separator !in item.filename
    ensures |item.filename| <= |path| && path[|path| - |item.filename|..] == item.filename
  {
    PinItem(path, Basename(path))
  }

  /** An item whose label is the basename of its path, as every constructed item is. */
  predicate Derived(item: PinItem) {
    item.filename == Basename(item.filepath)
  }

  /** One item per path, in order. */
  function Items(paths: seq<string>): (items: seq<PinItem>)
    ensures |items| == |paths|
    ensures forall k :: 0 <= k < |items| ==> items[k] == MakeItem(paths[k])
  {
    seq(|paths|, k requires 0 <= k < |paths| => MakeItem(paths[k]))
  }

  /** The paths of a sequence of items, in order. */
  function Filepaths(items: seq<PinItem>): (paths: seq<string>)
    ensures |paths| == |items|
    ensures forall k :: 0 <= k < |paths| ==> paths[k] == items[k].filepath
  {
    seq(|items|, k requires 0 <= k < |items| => items[k].filepath)
  }

  /** The label depends on the path alone: equal paths give equal items. */
  lemma ItemDeterminedByPath(a: string, b: string)
    ensures MakeItem(a) == MakeItem(b) <==> a == b
  {
  }

  /** The label of a pin for `dir/name` is `name`. */
  lemma ItemNameIsLastSegment(dir: string, name: string)
    requires Separator !in name
    ensures MakeItem(dir + [Separator] + name).filename == name
  {
    BasenameOfJoin(dir, name);
  }

  /** Building items and reading their paths back gives the paths. */
  lemma FilepathsOfItems(paths: seq<string>)
    ensures Filepaths(Items(paths)) == paths
  {
  }

  /** Items of a concatenation are the items of each part, in order. */
  lemma ItemsConcat(a: seq<string>, b: seq<string>)
    ensures Items(a + b) == Items(a) + Items(b)
  {
    var l, r := Items(a + b), Items(a) + Items(b);
    assert |l| == |r|;
    forall k | 0 <= k < |l|
      ensures l[k] == r[k]
    {
      if k < |a| {
        assert (a + b)[k] == a[k];
        assert r[k] == Items(a)[k];
      } else {
        assert (a + b)[k] == b[k - |a|];
        assert r[k] == Items(b)[k - |a|];
      }
    }
  }

  /** Items of a sequence with one more path: one more item at the end. */
  lemma ItemsSnoc(paths: seq<string>, p: string)
    ensures Items(paths + [p]) == Items(paths) + [MakeItem(p)]
  {
    assert forall k :: 0 <= k < |paths| ==> (paths + [p])[k] == paths[k];
  }
}
