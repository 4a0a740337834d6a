/**
 Concrete cases of the formatters on small inputs: the chunking of an odd
 number of items, the two table shapes of a 2x2 table, a table with a
 repeated heading, the normalisation of a padded heading, and a named list.
 */
module Scenarios {
  import opened Seqs
  import opened Text
  import opened Chunking
  import opened Formatters
  import opened Html

  /** Five items in pairs give two pairs; the fifth item is never emitted. */
  lemma OddItemsDropLast()
    ensures Chunks([1, 2, 3, 4, 5], 2) == [[1, 2], [3, 4]]
  {
    var xs := [1, 2, 3, 4, 5];
    assert xs[..2] == [1, 2] && xs[2..] == [3, 4, 5];
    assert xs[2..][..2] == [3, 4] && xs[2..][2..] == [5];
    assert Chunks([5], 2) == [];
  }

  /** Headings `A`, `B` over cells `1`..`4`. */
  lemma TwoByTwoTable()
    ensures TableRows(["A", "B"], ["1", "2", "3", "4"]) == [["A", "B"], ["1", "2"], ["3", "4"]]
    ensures TableColumns(["A", "B"], ["1", "2", "3", "4"]) == map["A" := ["1", "3"], "B" := ["2", "4"]]
  {
    var hs := ["A", "B"];
    var cells := ["1", "2", "3", "4"];
    var m := TableColumns(hs, cells);
    assert LastIndex(hs, "A") == 0;
    assert LastIndex(hs, "B") == 1;
    assert m.Keys == {"A", "B"};
    assert m["A"] == ["1", "3"];
    assert m["B"] == ["2", "4"];
    assert cells[..2] == ["1", "2"] && cells[2..] == ["3", "4"];
    assert cells[2..][..2] == ["3", "4"] && cells[2..][2..] == [];
  }

  /** Headings `A`, `A`: one key, holding the second column. */
  lemma RepeatedHeadingTable()
    ensures TableColumns(["A", "A"], ["1", "2", "3", "4"]) == map["A" := ["2", "4"]]
  {
    var hs := ["A", "A"];
    var cells := ["1", "2", "3", "4"];
    var m := TableColumns(hs, cells);
    assert LastIndex(hs, "A") == 1;
    assert m.Keys == {"A"};
    assert m["A"] == ["2", "4"];
  }

  /** A heading cell whose text is `"  Name \n "` reads as `"Name"`. */
  lemma PaddedHeading()
    ensures Normalize("  Name \n ") == "Name"
  {
    assert "  Name \n " == "  " + "Name" + " \n ";
    NormalizeTrims("  ", "Name", " \n ");
  }

  /** `<ul id="nav"><li>Home</li><li>About</li></ul>` lists its name, then
      its two items. */
  lemma NavList(home: Node, about: Node, list: Node)
    requires home == Node("li", map[], Some("Home"), None, [])
    requires about == Node("li", map[], Some("About"), None, [])
    requires list == Node("ul", map["id" := "nav"], None, None, [home, about])
    ensures UlOlList(list) == [Name(["nav"]), Item("Home"), Item("About")]
  {
    assert Iter(home, "li") == [home] by {
      assert ChildIters(home, "li") == [];
    }
    assert Iter(about, "li") == [about] by {
      assert ChildIters(about, "li") == [];
    }
    assert Iter(list, "li") == [home, about] by {
      var below := ChildIters(list, "li");
      assert below == [[home], [about]];
      assert Flatten(below) == [home] + Flatten([[about]]);
      assert Flatten([[about]]) == [about] + Flatten([]);
    }
    assert TextContent(home) == "Home" by {
      assert ChildTexts(home) == [];
    }
    assert TextContent(about) == "About" by {
      assert ChildTexts(about) == [];
    }
    assert NodeId(list) == ["nav"] by {
      SplitToken("nav");
    }
  }
}
