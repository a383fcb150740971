/** The fixed category table, the preview data set, and how the flat list of menu
    items is split into the sections the menu shows, one per category that has at
    least one item. */
module CategoryRegistry {
  import opened JsValues
  import opened MenuData

  datatype Category = Category(id: string, title: string, bg: Option<string>, filled: bool)

  /** One rendered menu section: its category and the items listed under it. */
  datatype Section = Section(category: Category, items: seq<MenuItem>)

  const Chocolate := "#5C2B1F"
  const Terracotta := "#D35230"

  /** The categories in the order the menu and the navigation bar show them. */
  const Categories: seq<Category> := [
    Category("appetizers", "Appetizers", Some(Terracotta), true),
    Category("noodle soups", "Noodle Soups", Some(Chocolate), true),
    Category("noodles", "Noodles", None, false),
    Category("fried rice", "Fried Rice", None, false),
    Category("curries", "Curries", Some(Terracotta), true),
    Category("asian entrees", "Asian Entrees", Some(Chocolate), true),
    Category("salads", "Salads", None, false),
    Category("sides", "Sides", None, false),
    Category("beverages", "Beverages", None, false)
  ]

  function Mock(name: string, price: string, category: string, description: string): MenuItem {
    MenuItem(JStr(name), JStr(price), JStr(category), JStr(description))
  }

  /** The fixed data set shown in the design tool's static preview. */
  const MockItems: seq<MenuItem> := [
    Mock("Spring Rolls", "8", "appetizers", "3 Rolls filled with glass noodles and vegetables"),
    Mock("Potstickers", "9", "appetizers", "6 Dumplings steamed then pan fried"),
    Mock("Khao Soi", "10", "noodle soups", "Rich, creamy and fragrant coconut curry noodle soup"),
    Mock("Pad Thai", "12", "noodles", "Rice noodles with egg, bean sprouts, peanuts"),
    Mock("Fried Rice", "11", "fried rice", "Thai style fried rice with vegetables"),
    Mock("Red Curry", "13", "curries", "Classic Thai red curry with vegetables"),
    Mock("Mongolian Beef", "14", "asian entrees", "Tender beef with scallions in savory sauce"),
    Mock("Papaya Salad", "9", "salads", "Fresh green papaya with spicy lime dressing"),
    Mock("Sticky Rice", "3", "sides", "Traditional Thai sticky rice"),
    Mock("Thai Iced Tea", "4", "beverages", "Sweet and creamy Thai tea")
  ]

  /** The filter's test: the category is truthy and, lower-cased then trimmed, equals
      the lower-cased id. Only a non-empty string category can pass, and the test is
      the same as comparing the trimmed category case-insensitively with the id. */
  function Matches(item: MenuItem, id: string): (b: bool)
    ensures b <==> item.category.JStr? && item.category.s != [] && Lower(Trim(item.category.s)) == Lower(id)
  {
    && Truthy(item.category) && item.category.JStr?
    && (LowerTrimCommute(item.category.s); Trim(Lower(item.category.s)) == Lower(id))
  }

  /** The items listed under category `id`, in menu order. */
  function SectionItems(items: seq<MenuItem>, id: string): (r: seq<MenuItem>)
    ensures |r| <= |items|
    ensures forall x :: x in r ==> Matches(x, id)
  {
    if items == [] then []
    else (if Matches(items[0], id) then [items[0]] else []) + SectionItems(items[1..], id)
  }

  /** `a` is `b` with some elements left out, the rest in their order. */
  ghost predicate IsSubsequence<T>(a: seq<T>, b: seq<T>)
    decreases |b|
  {
    a == [] || (b != [] && ((a[0] == b[0] && IsSubsequence(a[1..], b[1..])) || IsSubsequence(a, b[1..])))
  }

  /** The sections `CATEGORIES.map(c => <MenuSection/>)` renders: a category whose
      filtered list is empty renders nothing. */
  function RenderSections(cats: seq<Category>, items: seq<MenuItem>): (r: seq<Section>)
    ensures |r| <= |cats|
    ensures forall s :: s in r ==> s.items != [] && s.category in cats
  {
    if cats == [] then []
    else
      var filtered := SectionItems(items, cats[0].id);
      (if filtered == [] then [] else [Section(cats[0], filtered)]) + RenderSections(cats[1..], items)
  }

  /** An item is listed under `id` exactly when it is in the list and passes the test. */
  lemma {:induction false} SectionItemsMembership(items: seq<MenuItem>, id: string, x: MenuItem)
    ensures x in SectionItems(items, id) <==> x in items && Matches(x, id)
  {
    if items != [] {
      SectionItemsMembership(items[1..], id, x);
      assert items == [items[0]] + items[1..];
    }
  }

  /** Each item occurs under `id` as often as in the list if it matches, else never. */
  lemma {:induction false} SectionItemsCount(items: seq<MenuItem>, id: string, x: MenuItem)
    ensures multiset(SectionItems(items, id))[x] == if Matches(x, id) then multiset(items)[x] else 0
  {
    if items != [] {
      SectionItemsCount(items[1..], id, x);
      assert items == [items[0]] + items[1..];
    }
  }

  /** The section's list keeps the order of the menu list. */
  lemma {:induction false} SectionItemsSubsequence(items: seq<MenuItem>, id: string)
    ensures IsSubsequence(SectionItems(items, id), items)
  {
    if items != [] {
      SectionItemsSubsequence(items[1..], id);
      var r := SectionItems(items, id);
      if Matches(items[0], id) {
        assert r[0] == items[0] && r[1..] == SectionItems(items[1..], id);
      } else {
        assert r == SectionItems(items[1..], id);
      }
    }
  }

  /** Filtering a concatenation filters each part: order across the list is kept. */
  lemma {:induction false} SectionItemsAppend(a: seq<MenuItem>, b: seq<MenuItem>, id: string)
    ensures SectionItems(a + b, id) == SectionItems(a, id) + SectionItems(b, id)
  {
    if a != [] {
      assert (a + b)[0] == a[0] && (a + b)[1..] == a[1..] + b;
      SectionItemsAppend(a[1..], b, id);
    } else {
      assert a + b == b;
    }
  }

  /** Filtering the filtered list changes nothing. */
  lemma {:induction false} SectionItemsIdempotent(items: seq<MenuItem>, id: string)
    ensures SectionItems(SectionItems(items, id), id) == SectionItems(items, id)
  {
    if items != [] {
      var rest := SectionItems(items[1..], id);
      SectionItemsIdempotent(items[1..], id);
      if Matches(items[0], id) {
        assert SectionItems(items, id) == [items[0]] + rest;
        SectionItemsAppend([items[0]], rest, id);
        assert [items[0]][1..] == [];
        assert SectionItems([items[0]], id) == [items[0]];
      } else {
        assert SectionItems(items, id) == rest;
      }
    }
  }

  /** A rendered section lists exactly its category's filtered items. */
  lemma {:induction false} RenderedSectionItems(cats: seq<Category>, items: seq<MenuItem>, s: Section)
    requires s in RenderSections(cats, items)
    ensures s.items == SectionItems(items, s.category.id)
  {
    if cats != [] {
      var filtered := SectionItems(items, cats[0].id);
      if s !in RenderSections(cats[1..], items) {
        assert s == Section(cats[0], filtered);
      } else {
        RenderedSectionItems(cats[1..], items, s);
      }
    }
  }

  /** Category `c` gets a section exactly when it is in the table and some item matches it. */
  lemma {:induction false} RenderedIff(cats: seq<Category>, items: seq<MenuItem>, c: Category)
    ensures (exists s :: s in RenderSections(cats, items) && s.category == c)
            <==> c in cats && exists x :: x in items && Matches(x, c.id)
  {
    if cats != [] {
      var filtered := SectionItems(items, cats[0].id);
      RenderedIff(cats[1..], items, c);
      if c == cats[0] {
        if filtered != [] {
          SectionItemsMembership(items, c.id, filtered[0]);
          assert Section(c, filtered) in RenderSections(cats, items);
        } else if exists x :: x in items && Matches(x, c.id) {
          var x :| x in items && Matches(x, c.id);
          SectionItemsMembership(items, c.id, x);
        }
      }
      if exists x :: x in items && Matches(x, c.id) {
        var x :| x in items && Matches(x, c.id);
        SectionItemsMembership(items, c.id, x);
      }
      forall s | s in RenderSections(cats, items) && s.category == c
        ensures exists x :: x in items && Matches(x, c.id)
      {
        RenderedSectionItems(cats, items, s);
        SectionItemsMembership(items, c.id, s.items[0]);
      }
    }
  }

  /** The categories of a list of sections, in order. */
  function CategoriesOf(sections: seq<Section>): seq<Category> {
    seq(|sections|, i requires 0 <= i < |sections| => sections[i].category)
  }

  /** The sections follow the table: their categories are the table with the empty
      ones left out, in table order. */
  lemma {:induction false} RenderedInTableOrder(cats: seq<Category>, items: seq<MenuItem>)
    ensures IsSubsequence(CategoriesOf(RenderSections(cats, items)), cats)
  {
    if cats != [] {
      var filtered := SectionItems(items, cats[0].id);
      var rest := RenderSections(cats[1..], items);
      RenderedInTableOrder(cats[1..], items);
      if filtered == [] {
        assert RenderSections(cats, items) == rest;
      } else {
        var r := RenderSections(cats, items);
        assert r == [Section(cats[0], filtered)] + rest;
        assert CategoriesOf(r)[0] == cats[0];
        assert CategoriesOf(r)[1..] == CategoriesOf(rest);
      }
    }
  }

  /** No two of the sections share a category id. */
  predicate SectionIdsDistinct(r: seq<Section>) {
    forall i, j :: 0 <= i < j < |r| ==> r[i].category.id != r[j].category.id
  }

  /** Prepending a section whose id no later section has keeps the ids distinct. */
  lemma PrependDistinct(s: Section, rest: seq<Section>)
    requires SectionIdsDistinct(rest) && forall t :: t in rest ==> t.category.id != s.category.id
    ensures SectionIdsDistinct([s] + rest)
  {
    var r := [s] + rest;
    forall i, j | 0 <= i < j < |r|
      ensures r[i].category.id != r[j].category.id
    {
      assert r[j] == rest[j - 1];
      if i > 0 {
        assert r[i] == rest[i - 1];
      }
    }
  }

  /** With pairwise distinct ids, no two sections share a category id: each
      category renders at most once. */
  lemma {:induction false} OneSectionPerCategory(cats: seq<Category>, items: seq<MenuItem>)
    requires forall i, j :: 0 <= i < j < |cats| ==> cats[i].id != cats[j].id
    ensures SectionIdsDistinct(RenderSections(cats, items))
  {
    if cats != [] {
      var filtered := SectionItems(items, cats[0].id);
      var rest := RenderSections(cats[1..], items);
      assert forall i :: 0 <= i < |cats[1..]| ==> cats[1..][i] == cats[i + 1];
      OneSectionPerCategory(cats[1..], items);
      if filtered != [] {
        forall t | t in rest
          ensures t.category.id != cats[0].id
        {
          var k :| 0 <= k < |cats[1..]| && cats[1..][k] == t.category;
          assert cats[k + 1] == t.category;
        }
        PrependDistinct(Section(cats[0], filtered), rest);
      }
    }
  }

  /** The table renders each category at most once. */
  lemma OneSectionPerTableCategory(items: seq<MenuItem>)
    ensures SectionIdsDistinct(RenderSections(Categories, items))
  {
    CategoryIdsDistinct();
    OneSectionPerCategory(Categories, items);
  }

  /** A section with id `id` is rendered exactly when some category of the table
      has that id and some item matches it. */
  lemma RenderedIdIff(cats: seq<Category>, items: seq<MenuItem>, id: string)
    ensures (exists s :: s in RenderSections(cats, items) && s.category.id == id)
            <==> exists c :: c in cats && c.id == id && exists x :: x in items && Matches(x, id)
  {
    if exists c :: c in cats && c.id == id && exists x :: x in items && Matches(x, id) {
      var c :| c in cats && c.id == id && exists x :: x in items && Matches(x, id);
      RenderedIff(cats, items, c);
    }
    if exists s :: s in RenderSections(cats, items) && s.category.id == id {
      var s :| s in RenderSections(cats, items) && s.category.id == id;
      RenderedIff(cats, items, s.category);
    }
  }

  /** An item that matches no category of the table is listed in no section. */
  lemma UnmatchedItemHidden(cats: seq<Category>, items: seq<MenuItem>, x: MenuItem)
    requires forall c :: c in cats ==> !Matches(x, c.id)
    ensures forall s :: s in RenderSections(cats, items) ==> x !in s.items
  {
  }

  /** An empty menu renders no section at all. */
  lemma {:induction false} NoItemsNoSections(cats: seq<Category>)
    ensures RenderSections(cats, []) == []
  {
    if cats != [] {
      NoItemsNoSections(cats[1..]);
    }
  }

  /** Each category of `cats` is matched by some item. */
  predicate EveryCategoryMatched(cats: seq<Category>, items: seq<MenuItem>) {
    forall i :: 0 <= i < |cats| ==> exists x :: x in items && Matches(x, cats[i].id)
  }

  /** The rendered sections are exactly one per category, in table order. */
  predicate RendersEveryCategory(cats: seq<Category>, items: seq<MenuItem>) {
    var r := RenderSections(cats, items);
    |r| == |cats| && forall i :: 0 <= i < |r| ==> r[i] == Section(cats[i], SectionItems(items, cats[i].id))
  }

  /** Every category of `cats` has an item that matches it, so every one renders,
      in table order. */
  lemma {:induction false} EveryCategoryRenders(cats: seq<Category>, items: seq<MenuItem>)
    requires EveryCategoryMatched(cats, items)
    ensures RendersEveryCategory(cats, items)
  {
    if cats != [] {
      var x :| x in items && Matches(x, cats[0].id);
      SectionItemsMembership(items, cats[0].id, x);
      assert forall i :: 0 <= i < |cats[1..]| ==> cats[1..][i] == cats[i + 1];
      EveryCategoryRenders(cats[1..], items);
    }
  }

  /** A string of lower-case ASCII letters and inner spaces. */
  predicate IsLowerWords(s: string) {
    && s != [] && s[0] != ' ' && s[|s| - 1] != ' '
    && forall k :: 0 <= k < |s| ==> 'a' <= s[k] <= 'z' || s[k] == ' '
  }

  /** Such a string is left alone by both `toLowerCase` and `trim`. */
  lemma LowerWordsFixed(s: string)
    requires IsLowerWords(s)
    ensures Lower(s) == s && Trim(s) == s
  {
    assert TrimStart(s) == s;
  }

  /** A string category equal to a lower-case id matches that id. */
  lemma ExactCategoryMatches(item: MenuItem, id: string)
    requires IsLowerWords(id) && item.category == JStr(id)
    ensures Matches(item, id)
  {
    LowerWordsFixed(id);
  }

  /** A category that differs from a lower-case id only in case matches that id. */
  lemma CaseInsensitiveMatch(item: MenuItem, id: string)
    requires IsLowerWords(id) && item.category.JStr? && Lower(item.category.s) == id
    ensures Matches(item, id)
  {
    LowerWordsFixed(id);
    LowerIdempotent(item.category.s);
  }

  /** A record whose category is "Noodles" is listed under the "noodles" section. */
  lemma CapitalisedCategoryListed()
    ensures var item := Mock("Pad Thai", "12", "Noodles", "...");
      Matches(item, "noodles") && SectionItems([item], "noodles") == [item]
  {
    var item := Mock("Pad Thai", "12", "Noodles", "...");
    assert Lower("Noodles") == "noodles";
    CaseInsensitiveMatch(item, "noodles");
    assert [item][1..] == [];
  }

  /** The table's ids are pairwise distinct. */
  lemma CategoryIdsDistinct()
    ensures forall i, j :: 0 <= i < j < |Categories| ==> Categories[i].id != Categories[j].id
  {
  }

  /** The table's ids are lower-case words, so `id.toLowerCase()` is the id itself. */
  lemma CategoryIdsLowerCase()
    ensures forall c :: c in Categories ==> IsLowerWords(c.id) && Lower(c.id) == c.id
  {
    forall c | c in Categories
      ensures IsLowerWords(c.id) && Lower(c.id) == c.id
    {
      LowerWordsFixed(c.id);
    }
  }

  /** For each preview item, the position in the table of the category it names. */
  const MockCategoryIndex: seq<nat> := [0, 0, 1, 2, 3, 4, 5, 6, 7, 8]

  /** Every preview item names exactly one category of the table, verbatim. */
  lemma MockItemsCategorised()
    ensures forall k :: 0 <= k < |MockItems| ==>
              && MockItems[k].category.JStr?
              && (exists i :: 0 <= i < |Categories| && Categories[i].id == MockItems[k].category.s)
              && (forall i, j :: 0 <= i < j < |Categories| ==>
                    Categories[i].id != MockItems[k].category.s || Categories[j].id != MockItems[k].category.s)
  {
    CategoryIdsDistinct();
    forall k | 0 <= k < |MockItems|
      ensures exists i :: 0 <= i < |Categories| && Categories[i].id == MockItems[k].category.s
    {
      assert Categories[MockCategoryIndex[k]].id == MockItems[k].category.s;
    }
  }

  /** The first preview item of the `i`-th category. */
  lemma PreviewWitness(i: nat) returns (k: nat)
    requires i < |Categories|
    ensures k < |MockItems| && MockItems[k].category == JStr(Categories[i].id)
  {
    k := [0, 2, 3, 4, 5, 6, 7, 8, 9][i];
  }

  /** Every preview category has a preview item that matches it. */
  lemma PreviewCategoriesMatched()
    ensures EveryCategoryMatched(Categories, MockItems)
  {
    CategoryIdsLowerCase();
    forall i | 0 <= i < |Categories|
      ensures exists x :: x in MockItems && Matches(x, Categories[i].id)
    {
      var k := PreviewWitness(i);
      ExactCategoryMatches(MockItems[k], Categories[i].id);
    }
  }

  /** In the static preview every category renders a non-empty section, in table order. */
  lemma PreviewRendersEveryCategory()
    ensures RendersEveryCategory(Categories, MockItems)
  {
    PreviewCategoriesMatched();
    EveryCategoryRenders(Categories, MockItems);
  }
}
