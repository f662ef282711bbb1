/** Worked examples of the dashboard's building blocks: numbers a reader can
    check by hand. */
module Scenarios {
  import opened Stats
  import opened Rows
  import CategoryViews
  import Normalize
  import Classify

  /** A country with AQI 10 and 20 has two cities, mean 15, minimum 10 and
      maximum 20; a country with one city at 100 has all three at 100. */
  lemma SummaryExample()
    ensures Summarize([10.0, 20.0]) == AqiSummary(2, 15.0, 10.0, 20.0)
    ensures Summarize([100.0]) == AqiSummary(1, 100.0, 100.0, 100.0)
  {
    var xs: seq<real> := [10.0, 20.0];
    assert Sum(xs) == 30.0 by {
      assert xs[1..] == [20.0] && xs[1..][1..] == [];
    }
    assert Sum([100.0]) == 100.0 by {
      assert [100.0][1..] == [];
    }
  }

  /** One city of four in the selected category is 25 percent. */
  lemma PercentExample()
    ensures CategoryViews.Percent(1, 4) == 25.0
  {
    CategoryViews.PercentRatio(1, 4);
  }

  /** The colour at and just past the first bound, far above the last one,
      and with an explicit alpha. */
  lemma ColorExamples()
    ensures Classify.GetColor(50.0) == Classify.Rgba(0, 200, 0, 180)
    ensures Classify.GetColor(51.0) == Classify.Rgba(255, 255, 0, 180)
    ensures Classify.GetColor(500.0) == Classify.Rgba(126, 0, 35, 180)
    ensures Classify.GetColor(100.0, 255).alpha == 255
  {
  }

  /** The radius on both sides of its two bounds. */
  lemma RadiusExamples()
    ensures Classify.Radius(99.0) == 2000 && Classify.Radius(100.0) == 3000
    ensures Classify.Radius(199.0) == 3000 && Classify.Radius(200.0) == 4000
  {
  }

  /** A city with no PM2.5 category next to one rated "Good" makes the
      category select box unsortable; either city alone does not. */
  lemma UnsortableExample()
    ensures var missing := CityRow("A", "X", 10.0, 1.0, 1.0, None, "", Northern, Eastern);
      var good := CityRow("B", "X", 20.0, 1.0, 1.0, Some("Good"), "", Northern, Eastern);
      && CategoryViews.UnsortableCategories([missing, good])
      && !CategoryViews.UnsortableCategories([good])
      && !CategoryViews.UnsortableCategories([missing])
  {
    var missing := CityRow("A", "X", 10.0, 1.0, 1.0, None, "", Northern, Eastern);
    var good := CityRow("B", "X", 20.0, 1.0, 1.0, Some("Good"), "", Northern, Eastern);
    assert [missing, good][0].category.None? && [missing, good][1].category.Some?;
  }

  /** A file whose only row has no PM2.5 category has no category text, so
      the category overwrite raises; an empty file does not. */
  lemma NoTextExample()
    ensures Normalize.NoTextCategories([RawRow("A", "X", Some(10.0), Some(1.0), Some(1.0), None)])
    ensures !Normalize.NoTextCategories([])
    ensures !Normalize.NoTextCategories([RawRow("A", "X", Some(10.0), Some(1.0), Some(1.0), Some("Good"))])
  {
    var good := [RawRow("A", "X", Some(10.0), Some(1.0), Some(1.0), Some("Good"))];
    assert good[0].category.Some?;
  }
}
