/** Concrete runs of the pin model on small workspaces. */
module PinItScenarios {
  import opened Wrappers
  import opened PosixPath
  import opened PinItems
  import opened PinItModel
  import opened Sequences

  /** Pinning "/a/b.txt" into an empty workspace shows one item labelled
      "b.txt", and fires nothing. */
  lemma FirstAddScenario()
    ensures GetChildren(AddItem(Initial, MakeItem("/a/b.txt")), None)
         == [PinItem("/a/b.txt", "b.txt")]
    ensures AddItem(Initial, MakeItem("/a/b.txt")).events == 0
  {
    assert "/a" + [Separator] + "b.txt" == "/a/b.txt";
    BasenameOfJoin("/a", "b.txt");
    var s := AddItem(Initial, MakeItem("/a/b.txt"));
    assert s.pins.value == ["/a/b.txt"];
    assert Without(["/a/b.txt"], "") == ["/a/b.txt"] by {
      WithoutSnoc([], "/a/b.txt", "");
    }
  }

  /** Removing "/a" from ["/a", "/b", "/a"] removes both copies. */
  lemma RemoveAllCopiesScenario()
    ensures RemoveItem(State(Some(["/a", "/b", "/a"]), 0), MakeItem("/a")).pins == Some(["/b"])
  {
    var a, b := "/a", "/b";
    assert a != b by { assert a[1] != b[1]; }
    WithoutSnoc([], a, a);
    assert Without([a], a) == [] by { assert [] + [a] == [a]; }
    WithoutSnoc([a], b, a);
    assert Without([a, b], a) == [b] by { assert [a] + [b] == [a, b]; }
    WithoutSnoc([a, b], a, a);
    assert Without([a, b, a], a) == [b] by { assert [a, b] + [a] == [a, b, a]; }
  }

  /** Clearing an absent slot leaves an empty, present list. */
  lemma ClearAbsentScenario()
    ensures ClearItems(Initial).pins == Some([])
    ensures ClearItems(Initial).events == 1
  {
  }

  /** An empty string among stored paths is not shown. */
  lemma SkipEmptyScenario()
    ensures Shown(State(Some(["/x", "", "/y"]), 0)) == ["/x", "/y"]
  {
    assert ["/x", "", "/y"] == ["/x", ""] + ["/y"];
    assert ["/x", ""] == ["/x"] + [""];
    assert ["/x"] == [] + ["/x"];
    WithoutSnoc([], "/x", "");
    WithoutSnoc(["/x"], "", "");
    WithoutSnoc(["/x"], "/y", "");
    FilepathsOfItems(["/x", "/y"]);
  }
}
