/**
 * The categories page: the number of articles in each category, listed by name.
 *
 * The source counts into a plain object (`{}`), so a category whose name is a property
 * every object inherits from `Object.prototype` (such as `toString`) already looks present
 * before its first article; it is never given its own entry and drops out of the list.
 * `CategoryDataAsWritten` models that; `CategoryData`, used everywhere else, counts into a
 * dictionary with no inherited keys.
 */
module CategoriesPage {
  import opened JsArray
  import opened JsString
  import opened Api

  datatype CategoryCount = CategoryCount(name: string, count: nat)

  /** The property names of `Object.prototype`; looking any of them up on `{}` gives a truthy value. */
  const ObjectPrototypeNames: set<string> := {
    "constructor", "__defineGetter__", "__defineSetter__", "hasOwnProperty",
    "__lookupGetter__", "__lookupSetter__", "isPrototypeOf", "propertyIsEnumerable",
    "toString", "valueOf", "__proto__", "toLocaleString"
  }

  /** The number of articles in category `c`. */
  function Count(articles: seq<Article>, c: string): nat
  {
    if articles == [] then 0
    else Count(articles[..|articles| - 1], c) + (if articles[|articles| - 1].category == c then 1 else 0)
  }

  lemma CountStep(articles: seq<Article>, i: nat)
    requires i < |articles|
    ensures forall c :: Count(articles[..i + 1], c) == Count(articles[..i], c) + (if articles[i].category == c then 1 else 0)
  {
    assert articles[..i + 1][..i] == articles[..i];
  }

  /** A category is counted at least once exactly when some article has it. */
  lemma {:induction false} CountPositive(articles: seq<Article>, c: string)
    ensures Count(articles, c) > 0 <==> exists i :: 0 <= i < |articles| && articles[i].category == c
  {
    if articles != [] {
      var init := articles[..|articles| - 1];
      CountPositive(init, c);
      if exists i :: 0 <= i < |init| && init[i].category == c {
        var i :| 0 <= i < |init| && init[i].category == c;
        assert articles[i].category == c;
      }
      if exists i :: 0 <= i < |articles| && articles[i].category == c {
        var i :| 0 <= i < |articles| && articles[i].category == c;
        if i < |init| {
          assert init[i].category == c;
        }
      }
    }
  }

  /**
   * The `reduce` into `acc`: a category gets an entry at its first article unless the
   * lookup `acc[category]` is already truthy through an `inherited` name; every article
   * whose category has an entry adds one to it. `keys` lists the entries in the order they were created.
   */
  method CountCategories(articles: seq<Article>, inherited: set<string>) returns (acc: map<string, nat>, keys: seq<string>)
    ensures forall c :: c in acc <==> c !in inherited && Count(articles, c) > 0
    ensures forall c :: c in acc ==> acc[c] == Count(articles, c)
    ensures NoDuplicates(keys) && forall c :: c in keys <==> c in acc
  {
    acc, keys := map[], [];
    var i := 0;
    while i < |articles|
      invariant i <= |articles|
      invariant forall c :: c in acc <==> c !in inherited && Count(articles[..i], c) > 0
      invariant forall c :: c in acc ==> acc[c] == Count(articles[..i], c)
      invariant NoDuplicates(keys) && forall c :: c in keys <==> c in acc
    {
      var category := articles[i].category;
      if category !in acc && category !in inherited {
        acc := acc[category := 0];
        keys := keys + [category];
      }
      if category in acc {
        acc := acc[category := acc[category] + 1];
      }
      CountStep(articles, i);
      i := i + 1;
    }
    assert articles[..|articles|] == articles;
  }

  /** The comparator `(a, b) => localeCompare(a.name, b.name)`. */
  function ByName(localeCompare: (string, string) -> int): (CategoryCount, CategoryCount) -> int
  {
    (a: CategoryCount, b: CategoryCount) => localeCompare(a.name, b.name)
  }

  lemma ByNameIsComparator(localeCompare: (string, string) -> int)
    requires IsComparator(localeCompare)
    ensures IsComparator(ByName(localeCompare))
  {
    var cmp := ByName(localeCompare);
    forall a, b ensures cmp(a, b) <= 0 || cmp(b, a) <= 0 {
      assert localeCompare(a.name, b.name) <= 0 || localeCompare(b.name, a.name) <= 0;
    }
    forall a, b, c | cmp(a, b) <= 0 && cmp(b, c) <= 0 ensures cmp(a, c) <= 0 {
      assert localeCompare(a.name, b.name) <= 0 && localeCompare(b.name, c.name) <= 0;
    }
  }

  /** No category appears twice. */
  predicate DistinctNames(data: seq<CategoryCount>)
  {
    forall i, j :: 0 <= i < j < |data| ==> data[i].name != data[j].name
  }

  /** Every entry is a category of some article, not among `inherited`, with its number of articles. */
  predicate CountsOf(articles: seq<Article>, inherited: set<string>, data: seq<CategoryCount>)
  {
    forall i :: 0 <= i < |data| ==> data[i].name !in inherited && data[i].count == Count(articles, data[i].name) > 0
  }

  /** Every category of the articles, other than those among `inherited`, has an entry. */
  predicate CoversCategories(articles: seq<Article>, inherited: set<string>, data: seq<CategoryCount>)
  {
    forall k :: 0 <= k < |articles| && articles[k].category !in inherited ==>
      exists i :: 0 <= i < |data| && data[i].name == articles[k].category
  }

  // ---------------------------------------------------------------------------------
  // The order of `Object.values`: an object lists its own keys that are array indices
  // first, in ascending numeric order, and its other string keys after them, in the order
  // they were created (OrdinaryOwnPropertyKeys, section 10.1.11.1 of ECMAScript 2023).
  // ---------------------------------------------------------------------------------

  predicate AllDigits(k: string)
  {
    forall i :: 0 <= i < |k| ==> IsDigit(k[i])
  }

  /** An array index: the canonical decimal form (no leading zero) of an integer below 2^32 - 1. */
  predicate IsArrayIndex(k: string)
  {
    && k != [] && AllDigits(k) && (k[0] == '0' ==> |k| == 1)
    && DecimalValue(k) < 0xFFFF_FFFF
  }

  /** The numeric value of a key made of digits; other keys are never compared by it. */
  function IndexValue(k: string): nat
  {
    if AllDigits(k) then DecimalValue(k) else 0
  }

  function ArrayIndexKey(): string -> bool
  {
    (k: string) => IsArrayIndex(k)
  }

  function OtherKey(): string -> bool
  {
    (k: string) => !IsArrayIndex(k)
  }

  function ByIndexValue(): (string, string) -> int
  {
    (a: string, b: string) => IndexValue(a) - IndexValue(b)
  }

  /** The keys that are array indices, in ascending numeric order. */
  function SortedIndexKeys(keys: seq<string>): seq<string>
  {
    SortBy(Filter(keys, ArrayIndexKey()), ByIndexValue())
  }

  /** The order in which `Object.values` visits the keys created in the order `keys`. */
  function OwnKeysOrder(keys: seq<string>): seq<string>
  {
    SortedIndexKeys(keys) + Filter(keys, OtherKey())
  }

  lemma ByIndexValueIsComparator()
    ensures IsComparator(ByIndexValue())
  {
    var cmp := ByIndexValue();
    forall a, b ensures cmp(a, b) <= 0 || cmp(b, a) <= 0 {
    }
    forall a, b, c | cmp(a, b) <= 0 && cmp(b, c) <= 0 ensures cmp(a, c) <= 0 {
    }
  }

  /** Sorting the array indices keeps only array indices. */
  lemma SortedIndicesAreIndices(keys: seq<string>)
    ensures forall i :: 0 <= i < |SortedIndexKeys(keys)| ==> IsArrayIndex(SortedIndexKeys(keys)[i])
  {
    var sorted := SortedIndexKeys(keys);
    SortByKeeps(Filter(keys, ArrayIndexKey()), ByIndexValue(), ArrayIndexKey());
    forall i | 0 <= i < |sorted| ensures IsArrayIndex(sorted[i]) {
      assert ArrayIndexKey()(sorted[i]);
    }
  }

  /** The sorted array indices ascend by numeric value. */
  lemma SortedIndicesAscend(keys: seq<string>)
    ensures forall i, j :: 0 <= i < j < |SortedIndexKeys(keys)| ==>
              IndexValue(SortedIndexKeys(keys)[i]) <= IndexValue(SortedIndexKeys(keys)[j])
  {
    var sorted := SortedIndexKeys(keys);
    ByIndexValueIsComparator();
    SortBySorted(Filter(keys, ArrayIndexKey()), ByIndexValue());
    forall i, j | 0 <= i < j < |sorted| ensures IndexValue(sorted[i]) <= IndexValue(sorted[j]) {
      assert ByIndexValue()(sorted[i], sorted[j]) <= 0;
    }
  }

  /** The listing order rearranges the keys: each key is listed exactly as often as it exists. */
  lemma OwnKeysOrderPermutes(keys: seq<string>)
    ensures multiset(OwnKeysOrder(keys)) == multiset(keys)
  {
    SortByPermutes(Filter(keys, ArrayIndexKey()), ByIndexValue());
    FilterPartition(keys, ArrayIndexKey(), OtherKey());
  }

  /** The array indices come first, in ascending numeric order. */
  lemma OwnKeysOrderIndicesFirst(keys: seq<string>)
    ensures |Filter(keys, ArrayIndexKey())| <= |OwnKeysOrder(keys)|
    ensures forall i :: 0 <= i < |Filter(keys, ArrayIndexKey())| ==> IsArrayIndex(OwnKeysOrder(keys)[i])
    ensures forall i, j :: 0 <= i < j < |Filter(keys, ArrayIndexKey())| ==>
              IndexValue(OwnKeysOrder(keys)[i]) <= IndexValue(OwnKeysOrder(keys)[j])
  {
    var sorted := SortedIndexKeys(keys);
    var order := OwnKeysOrder(keys);
    assert forall i :: 0 <= i < |sorted| ==> order[i] == sorted[i];
    SortedIndicesAreIndices(keys);
    SortedIndicesAscend(keys);
  }

  /** After the array indices come the other keys, in the order they were created. */
  lemma OwnKeysOrderOthersAsCreated(keys: seq<string>)
    ensures |Filter(keys, ArrayIndexKey())| <= |OwnKeysOrder(keys)|
    ensures forall i :: |Filter(keys, ArrayIndexKey())| <= i < |OwnKeysOrder(keys)| ==> !IsArrayIndex(OwnKeysOrder(keys)[i])
    ensures IsSubsequence(OwnKeysOrder(keys)[|Filter(keys, ArrayIndexKey())|..], keys)
  {
    var order := OwnKeysOrder(keys);
    var n := |Filter(keys, ArrayIndexKey())|;
    var others := Filter(keys, OtherKey());
    assert order[n..] == others;
    forall i | n <= i < |order| ensures !IsArrayIndex(order[i]) {
      assert order[i] == others[i - n] && OtherKey()(others[i - n]);
    }
    FilterIsSubsequence(keys, OtherKey());
  }

  /** Listing the keys of a dictionary in this order lists each of its keys once. */
  lemma OwnKeysOrderKeepsKeys(keys: seq<string>, acc: map<string, nat>)
    requires NoDuplicates(keys) && forall c :: c in keys <==> c in acc
    ensures var order := OwnKeysOrder(keys);
            NoDuplicates(order) && forall c :: c in order <==> c in acc
  {
    var order := OwnKeysOrder(keys);
    OwnKeysOrderPermutes(keys);
    PermutationNoDuplicates(keys, order);
    forall c ensures c in order <==> c in keys {
      assert c in order <==> c in multiset(order);
    }
  }

  /** `DecimalValue` reads the last digit off a string of digits. */
  lemma DecimalValueStep(s: string, d: char)
    requires AllDigits(s) && IsDigit(d)
    ensures DecimalValue(s + [d]) == 10 * DecimalValue(s) + (d as int - '0' as int)
  {
    assert (s + [d])[..|s|] == s;
  }

  /** "2023" is the array index 2023. */
  lemma Key2023()
    ensures IsArrayIndex("2023") && IndexValue("2023") == 2023
  {
    assert DecimalValue("2023") == 2023 by {
      DecimalValueStep("", '2');
      assert "" + ['2'] == "2";
      DecimalValueStep("2", '0');
      assert "2" + ['0'] == "20";
      DecimalValueStep("20", '2');
      assert "20" + ['2'] == "202";
      DecimalValueStep("202", '3');
      assert "202" + ['3'] == "2023";
    }
  }

  /** "7" is the array index 7. */
  lemma Key7()
    ensures IsArrayIndex("7") && IndexValue("7") == 7
  {
    DecimalValueStep("", '7');
    assert "" + ['7'] == "7";
  }

  /** "Web" is not an array index. */
  lemma KeyWeb()
    ensures !IsArrayIndex("Web")
  {
    assert !IsDigit("Web"[0]);
  }

  /** `{ "Web": …, "2023": …, "7": … }` lists "7", then "2023", then "Web". */
  lemma IndexKeysListedFirst()
    ensures OwnKeysOrder(["Web", "2023", "7"]) == ["7", "2023", "Web"]
  {
    var keys := ["Web", "2023", "7"];
    var cmp := ByIndexValue();
    Key2023();
    Key7();
    KeyWeb();
    assert Filter(keys, ArrayIndexKey()) == ["2023", "7"] by {
      FilterThree("Web", "2023", "7", ArrayIndexKey());
    }
    assert Filter(keys, OtherKey()) == ["Web"] by {
      FilterThree("Web", "2023", "7", OtherKey());
    }
    assert SortBy(["2023", "7"], cmp) == ["7", "2023"] by {
      assert ["2023", "7"][..1] == ["2023"] && ["2023"][..0] == [];
      assert cmp("2023", "7") > 0;
    }
  }

  /** `Object.values(acc)` visiting the keys in `order`: one entry per key, with its count. */
  function Entries(acc: map<string, nat>, keys: seq<string>): (r: seq<CategoryCount>)
    requires forall i :: 0 <= i < |keys| ==> keys[i] in acc
    ensures |r| == |keys| && forall i :: 0 <= i < |keys| ==> r[i] == CategoryCount(keys[i], acc[keys[i]])
  {
    seq(|keys|, i requires 0 <= i < |keys| => CategoryCount(keys[i], acc[keys[i]]))
  }

  lemma EntriesTabulate(articles: seq<Article>, inherited: set<string>, acc: map<string, nat>, keys: seq<string>)
    requires forall c :: c in acc <==> c !in inherited && Count(articles, c) > 0
    requires forall c :: c in acc ==> acc[c] == Count(articles, c)
    requires NoDuplicates(keys) && forall c :: c in keys <==> c in acc
    ensures var values := Entries(acc, keys);
            DistinctNames(values) && CountsOf(articles, inherited, values) && CoversCategories(articles, inherited, values)
  {
    var values := Entries(acc, keys);
    forall k | 0 <= k < |articles| && articles[k].category !in inherited
      ensures exists i :: 0 <= i < |values| && values[i].name == articles[k].category
    {
      var c := articles[k].category;
      CountPositive(articles, c);
      assert c in keys;
      var m :| 0 <= m < |keys| && keys[m] == c;
      assert values[m].name == c;
    }
  }

  /** Reordering a table keeps each of its three properties. */
  lemma PermutedTable(articles: seq<Article>, inherited: set<string>, values: seq<CategoryCount>, data: seq<CategoryCount>)
    requires multiset(values) == multiset(data)
    requires DistinctNames(values) && CountsOf(articles, inherited, values) && CoversCategories(articles, inherited, values)
    ensures DistinctNames(data) && CountsOf(articles, inherited, data) && CoversCategories(articles, inherited, data)
  {
    assert NoDuplicates(values) by {
      forall i, j | 0 <= i < j < |values| ensures values[i] != values[j] {
        assert values[i].name != values[j].name;
      }
    }
    PermutationNoDuplicates(values, data);
    forall i | 0 <= i < |data| ensures data[i].name !in inherited && data[i].count == Count(articles, data[i].name) > 0 {
      assert data[i] in multiset(values);
    }
    forall i, j | 0 <= i < j < |data| ensures data[i].name != data[j].name {
      assert data[i] in multiset(values) && data[j] in multiset(values);
      var p :| 0 <= p < |values| && values[p] == data[i];
      var q :| 0 <= q < |values| && values[q] == data[j];
      assert data[i] != data[j];
      assert p != q;
    }
    forall k | 0 <= k < |articles| && articles[k].category !in inherited
      ensures exists i :: 0 <= i < |data| && data[i].name == articles[k].category
    {
      var m :| 0 <= m < |values| && values[m].name == articles[k].category;
      assert values[m] in multiset(data);
    }
  }

  /**
   * `Object.values(acc).sort(byName)` after counting with the given inherited names.
   * `localeCompare` stands for `String.prototype.localeCompare`; when it is a consistent
   * comparator the list comes out ordered by it.
   */
  method Tabulate(articles: seq<Article>, inherited: set<string>, localeCompare: (string, string) -> int)
    returns (data: seq<CategoryCount>)
    ensures DistinctNames(data) && CountsOf(articles, inherited, data) && CoversCategories(articles, inherited, data)
    ensures IsComparator(localeCompare) ==> forall i, j :: 0 <= i < j < |data| ==> localeCompare(data[i].name, data[j].name) <= 0
  {
    var acc, keys := CountCategories(articles, inherited);
    var order := OwnKeysOrder(keys);
    OwnKeysOrderKeepsKeys(keys, acc);
    var values := Entries(acc, order);
    EntriesTabulate(articles, inherited, acc, order);
    var a := new CategoryCount[|values|](i requires 0 <= i < |values| => values[i]);
    assert a[..] == values;
    Sort(a, ByName(localeCompare));
    data := a[..];
    SortByPermutes(values, ByName(localeCompare));
    PermutedTable(articles, inherited, values, data);
    if IsComparator(localeCompare) {
      ByNameIsComparator(localeCompare);
      SortBySorted(values, ByName(localeCompare));
    }
  }

  /** `categoryData` as the source computes it, counting into a plain object. */
  method CategoryDataAsWritten(articles: seq<Article>, localeCompare: (string, string) -> int)
    returns (data: seq<CategoryCount>)
    ensures DistinctNames(data) && CountsOf(articles, ObjectPrototypeNames, data)
    ensures CoversCategories(articles, ObjectPrototypeNames, data)
  {
    data := Tabulate(articles, ObjectPrototypeNames, localeCompare);
  }

  /** `categoryData` with the intended counting: every category of the articles, once, with its count. */
  method CategoryData(articles: seq<Article>, localeCompare: (string, string) -> int)
    returns (data: seq<CategoryCount>)
    ensures DistinctNames(data) && CountsOf(articles, {}, data) && CoversCategories(articles, {}, data)
    ensures IsComparator(localeCompare) ==> forall i, j :: 0 <= i < j < |data| ==> localeCompare(data[i].name, data[j].name) <= 0
    ensures articles == [] <==> data == []
    ensures TotalCount(data) == |articles|
  {
    data := Tabulate(articles, {}, localeCompare);
    CategoryCountsAddUp(articles, data);
    if articles != [] {
      assert articles[0].category !in {};
    }
    if data != [] {
      assert Count(articles, data[0].name) > 0;
    }
  }

  /** A single article filed under `toString` leaves the as-written list empty; the intended list has it once. */
  method ToStringCategoryIsLost(article: Article, localeCompare: (string, string) -> int)
    returns (asWritten: seq<CategoryCount>, intended: seq<CategoryCount>)
    requires article.category == "toString"
    ensures asWritten == [] && intended == [CategoryCount("toString", 1)]
  {
    asWritten := CategoryDataAsWritten([article], localeCompare);
    if asWritten != [] {
      CountPositive([article], asWritten[0].name);
    }
    intended := CategoryData([article], localeCompare);
    assert Count([article], "toString") == 1;
    forall i | 0 <= i < |intended| ensures intended[i] == CategoryCount("toString", 1) {
      var name := intended[i].name;
      assert Count([article], name) > 0;
      CountPositive([article], name);
    }
    assert |intended| == 1 by {
      assert exists i :: 0 <= i < |intended| && intended[i].name == "toString";
    }
  }

  /** The sum of the counts in a list. */
  function TotalCount(data: seq<CategoryCount>): nat
  {
    if data == [] then 0 else TotalCount(data[..|data| - 1]) + data[|data| - 1].count
  }

  /** The sum of `Count` over a list of names. */
  function CountSum(articles: seq<Article>, names: seq<string>): nat
  {
    if names == [] then 0 else CountSum(articles, names[..|names| - 1]) + Count(articles, names[|names| - 1])
  }

  lemma {:induction false} CountSumStep(articles: seq<Article>, names: seq<string>)
    requires articles != []
    ensures var last := articles[|articles| - 1];
            CountSum(articles, names) == CountSum(articles[..|articles| - 1], names) + multiset(names)[last.category]
  {
    if names != [] {
      var init := names[..|names| - 1];
      CountSumStep(articles, init);
      assert names == init + [names[|names| - 1]];
    }
  }

  lemma {:induction false} CountsAddUp(articles: seq<Article>, names: seq<string>)
    requires NoDuplicates(names)
    requires forall k :: 0 <= k < |articles| ==> articles[k].category in names
    ensures CountSum(articles, names) == |articles|
  {
    if articles == [] {
      CountSumEmpty(names);
    } else {
      var init := articles[..|articles| - 1];
      var last := articles[|articles| - 1];
      assert forall k :: 0 <= k < |init| ==> init[k] == articles[k];
      CountsAddUp(init, names);
      CountSumStep(articles, names);
      NoDuplicatesOccurOnce(names, last.category);
    }
  }

  lemma {:induction false} CountSumEmpty(names: seq<string>)
    ensures CountSum([], names) == 0
  {
    if names != [] {
      CountSumEmpty(names[..|names| - 1]);
    }
  }

  /** The category names of a list of counts. */
  function Names(data: seq<CategoryCount>): (names: seq<string>)
    ensures |names| == |data| && forall i :: 0 <= i < |data| ==> names[i] == data[i].name
  {
    seq(|data|, i requires 0 <= i < |data| => data[i].name)
  }

  lemma {:induction false} TotalIsCountSum(articles: seq<Article>, data: seq<CategoryCount>)
    requires forall i :: 0 <= i < |data| ==> data[i].count == Count(articles, data[i].name)
    ensures TotalCount(data) == CountSum(articles, Names(data))
  {
    if data != [] {
      var init := data[..|data| - 1];
      TotalIsCountSum(articles, init);
      assert Names(data)[..|data| - 1] == Names(init);
    }
  }

  /** The counts of `categoryData` add up to the number of articles. */
  lemma CategoryCountsAddUp(articles: seq<Article>, data: seq<CategoryCount>)
    requires DistinctNames(data) && CountsOf(articles, {}, data) && CoversCategories(articles, {}, data)
    ensures TotalCount(data) == |articles|
  {
    TotalIsCountSum(articles, data);
    var names := Names(data);
    forall k | 0 <= k < |articles| ensures articles[k].category in names {
      assert articles[k].category !in {};
      var i :| 0 <= i < |data| && data[i].name == articles[k].category;
      assert names[i] == articles[k].category;
    }
    CountsAddUp(articles, names);
  }

  /** The label under a count: `count === 1 ? 'article' : 'articles'`. */
  function CountLabel(count: nat): (word: string)
    ensures word == "article" <==> count == 1
    ensures word == "article" || word == "articles"
  {
    if count == 1 then "article" else "articles"
  }
}
