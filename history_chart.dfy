/**
 * The per-category aggregation of the history chart
 * (components/HistoryChart.tsx): counting the category labels of every item
 * of every stored scan into a dictionary, turning the dictionary into chart
 * entries in key-insertion order with their colours, and totalling the
 * entries.
 */
module HistoryChart {
  import opened Wrappers
  import opened Types

  // ---------------------------------------------------------------------
  // What is counted: the flattened category labels
  // ---------------------------------------------------------------------

  /** The category labels of `items`, in order. */
  function CategoryLabels(items: seq<WasteItem>): (r: seq<string>)
    ensures |r| == |items|
    ensures forall k :: 0 <= k < |items| ==> r[k] == Label(items[k].category)
    decreases |items|
  {
    if items == [] then []
    else CategoryLabels(items[..|items| - 1]) + [Label(items[|items| - 1].category)]
  }

  /** The category labels of all items of all scans, scan by scan and item by item. */
  function ItemLabels(history: seq<ScanResult>): seq<string>
    decreases |history|
  {
    if history == [] then []
    else ItemLabels(history[..|history| - 1]) + CategoryLabels(history[|history| - 1].items)
  }

  /** The number of items over all scans: the sum of `scan.items.length`. */
  function ItemCount(history: seq<ScanResult>): nat
    decreases |history|
  {
    if history == [] then 0
    else ItemCount(history[..|history| - 1]) + |history[|history| - 1].items|
  }

  /** One label per item, so there are as many labels as items. */
  lemma {:induction false} ItemLabelsLength(history: seq<ScanResult>)
    ensures |ItemLabels(history)| == ItemCount(history)
    decreases |history|
  {
    if history != [] {
      ItemLabelsLength(history[..|history| - 1]);
    }
  }

  /** Every label counted is the label of one of the six categories. */
  lemma {:induction false} ItemLabelsAreCategoryLabels(history: seq<ScanResult>)
    ensures forall k :: 0 <= k < |ItemLabels(history)| ==> CategoryOfLabel(ItemLabels(history)[k]).Some?
    decreases |history|
  {
    if history != [] {
      var front := history[..|history| - 1];
      ItemLabelsAreCategoryLabels(front);
      var tail := CategoryLabels(history[|history| - 1].items);
      forall k | 0 <= k < |ItemLabels(history)|
        ensures CategoryOfLabel(ItemLabels(history)[k]).Some?
      {
        if k >= |ItemLabels(front)| {
          var c := history[|history| - 1].items[k - |ItemLabels(front)|].category;
          assert ItemLabels(history)[k] == tail[k - |ItemLabels(front)|] == Label(c);
          LabelInjective(c, c);
          assert CategoryOfLabel(Label(c)) == Some(c) by {
            match c
            case Biodegradable =>
            case Recyclable =>
            case NonRecyclable =>
            case Hazardous =>
            case EWaste =>
            case Unknown =>
          }
        }
      }
    }
  }

  // ---------------------------------------------------------------------
  // Key insertion order
  // ---------------------------------------------------------------------

  /** The distinct elements of `s`, each where it first occurs: the order in which a dictionary receives its keys. */
  function FirstOccurrences(s: seq<string>): (r: seq<string>)
    ensures forall x :: x in r <==> x in s
    decreases |s|
  {
    if s == [] then []
    else
      var p := FirstOccurrences(s[..|s| - 1]);
      if s[|s| - 1] in p then p else p + [s[|s| - 1]]
  }

  predicate Distinct(s: seq<string>)
  {
    forall i, j :: 0 <= i < j < |s| ==> s[i] != s[j]
  }

  /** The index of the first occurrence of `x` in `s`. */
  function FirstIndex(s: seq<string>, x: string): (i: nat)
    requires x in s
    ensures i < |s| && s[i] == x && x !in s[..i]
  {
    if s[0] == x then 0
    else
      assert x in s[1..];
      var j := FirstIndex(s[1..], x);
      assert s[..j + 1] == [s[0]] + s[1..][..j];
      j + 1
  }

  lemma FirstIndexOfPrefix(s: seq<string>, t: seq<string>, x: string)
    requires x in s
    ensures FirstIndex(s + t, x) == FirstIndex(s, x)
  {
    var i := FirstIndex(s, x);
    var k := FirstIndex(s + t, x);
    assert (s + t)[..i] == s[..i];
    assert (s + t)[i] == x;
  }

  /**
   * Each distinct label is listed once, and the listing follows first
   * occurrence: an earlier key first occurs earlier in `s`.
   */
  lemma {:induction false} FirstOccurrencesOrder(s: seq<string>)
    ensures Distinct(FirstOccurrences(s))
    ensures forall i, j :: 0 <= i < j < |FirstOccurrences(s)| ==>
      FirstIndex(s, FirstOccurrences(s)[i]) < FirstIndex(s, FirstOccurrences(s)[j])
    decreases |s|
  {
    if s != [] {
      var front := s[..|s| - 1];
      var x := s[|s| - 1];
      FirstOccurrencesOrder(front);
      var p := FirstOccurrences(front);
      assert s == front + [x];
      forall y | y in p ensures FirstIndex(s, y) == FirstIndex(front, y) {
        FirstIndexOfPrefix(front, [x], y);
      }
      if x !in p {
        assert x !in front;
        assert FirstIndex(s, x) == |front| by {
          assert s[|front|] == x;
        }
        forall i | 0 <= i < |p| ensures FirstIndex(s, p[i]) < FirstIndex(s, x) {
          assert p[i] in p;
        }
        var r := p + [x];
        forall i, j | 0 <= i < j < |r|
          ensures FirstIndex(s, r[i]) < FirstIndex(s, r[j])
        {
          assert r[i] == p[i];
          if j < |p| {
            assert r[j] == p[j];
          }
        }
      }
    }
  }

  // ---------------------------------------------------------------------
  // Counting (lines 29-34)
  // ---------------------------------------------------------------------

  /** `keys` and `counts` are the dictionary built from the labels `seen`. */
  ghost predicate Tally(seen: seq<string>, keys: seq<string>, counts: map<string, nat>)
  {
    && keys == FirstOccurrences(seen)
    && (forall k :: k in counts <==> k in seen)
    && (forall k :: k in counts ==> counts[k] == multiset(seen)[k])
  }

  /** `acc[key] = (acc[key] || 0) + 1` keeps the dictionary in step with one more label. */
  lemma CountingStep(seen: seq<string>, keys: seq<string>, counts: map<string, nat>, key: string,
                     keys': seq<string>, counts': map<string, nat>)
    requires Tally(seen, keys, counts)
    requires key !in counts ==> keys' == keys + [key] && counts' == counts[key := 1]
    requires key in counts ==> keys' == keys && counts' == counts[key := counts[key] + 1]
    ensures Tally(seen + [key], keys', counts')
  {
    var s := seen + [key];
    assert s[..|s| - 1] == seen;
    assert multiset(s) == multiset(seen) + multiset{key};
  }

  lemma CategoryLabelsSnoc(items: seq<WasteItem>, j: nat)
    requires j < |items|
    ensures CategoryLabels(items[..j + 1]) == CategoryLabels(items[..j]) + [Label(items[j].category)]
  {
    assert items[..j + 1][..j] == items[..j];
  }

  lemma ItemLabelsSnoc(history: seq<ScanResult>, i: nat)
    requires i < |history|
    ensures ItemLabels(history[..i + 1]) == ItemLabels(history[..i]) + CategoryLabels(history[i].items)
  {
    assert history[..i + 1][..i] == history[..i];
  }

  /** The forEach over one scan's items: one dictionary update per item, in order. */
  method TallyItems(items: seq<WasteItem>, keys0: seq<string>, counts0: map<string, nat>, ghost seen: seq<string>)
    returns (keys: seq<string>, counts: map<string, nat>)
    requires Tally(seen, keys0, counts0)
    ensures Tally(seen + CategoryLabels(items), keys, counts)
  {
    keys, counts := keys0, counts0;
    var j := 0;
    assert seen + CategoryLabels(items[..0]) == seen;
    while j < |items|
      invariant 0 <= j <= |items|
      invariant Tally(seen + CategoryLabels(items[..j]), keys, counts)
    {
      var key := Label(items[j].category);
      ghost var before := seen + CategoryLabels(items[..j]);
      ghost var keys1, counts1 := keys, counts;
      if key !in counts {
        keys := keys + [key];
        counts := counts[key := 1];
      } else {
        counts := counts[key := counts[key] + 1];
      }
      CountingStep(before, keys1, counts1, key, keys, counts);
      CategoryLabelsSnoc(items, j);
      assert before + [key] == seen + CategoryLabels(items[..j + 1]);
      j := j + 1;
    }
    assert items[..|items|] == items;
  }

  /**
   * The reduce over scans with a forEach over items that bumps one
   * dictionary entry per item: the dictionary `counts` with its keys in
   * insertion order `keys`. Each label that occurs is a key, in order of
   * first occurrence, and is mapped to the number of items that carry it.
   */
  method AggregateCounts(history: seq<ScanResult>) returns (keys: seq<string>, counts: map<string, nat>)
    ensures keys == FirstOccurrences(ItemLabels(history))
    ensures forall k :: k in counts <==> k in ItemLabels(history)
    ensures forall k :: k in counts ==> counts[k] == multiset(ItemLabels(history))[k]
  {
    keys := [];
    counts := map[];
    var i := 0;
    while i < |history|
      invariant 0 <= i <= |history|
      invariant Tally(ItemLabels(history[..i]), keys, counts)
    {
      keys, counts := TallyItems(history[i].items, keys, counts, ItemLabels(history[..i]));
      ItemLabelsSnoc(history, i);
      i := i + 1;
    }
    assert history[..|history|] == history;
  }

  // ---------------------------------------------------------------------
  // Chart entries and colours (lines 9-16, 36-43)
  // ---------------------------------------------------------------------

  const FallbackColor: string := "#ccc"

  /** The COLORS table. */
  function CategoryColor(c: WasteCategory): (color: string)
    ensures color != "" && color != FallbackColor
  {
    match c
    case Biodegradable => "#86efac"
    case Recyclable => "#93c5fd"
    case NonRecyclable => "#cbd5e1"
    case Hazardous => "#fca5a5"
    case EWaste => "#fcd34d"
    case Unknown => "#e2e8f0"
  }

  /** `COLORS[key as WasteCategory] || '#ccc'` on a plain string key: a key that is no category's label gets the fallback. */
  function ColorOf(key: string): (color: string)
    ensures color == FallbackColor <==> CategoryOfLabel(key).None?
    ensures CategoryOfLabel(key).Some? ==> color == CategoryColor(CategoryOfLabel(key).value)
  {
    match CategoryOfLabel(key)
    case Some(c) => CategoryColor(c)
    case None => FallbackColor
  }

  /** Every category has a colour of its own: the six colours are pairwise distinct. */
  lemma CategoryColorInjective(a: WasteCategory, b: WasteCategory)
    ensures CategoryColor(a) == CategoryColor(b) <==> a == b
  {
  }

  /** One slice of the pie: `{ name, value, color }`. */
  datatype ChartEntry = ChartEntry(name: string, value: nat, color: string)

  /** What the component draws: the placeholder for an empty history, else the pie and its total. */
  datatype ChartView = Placeholder | PieChart(data: seq<ChartEntry>, totalItems: nat)

  /** One entry per dictionary key, in key order: the key, its count and its colour. */
  function ChartData(keys: seq<string>, counts: map<string, nat>): (data: seq<ChartEntry>)
    requires forall k :: 0 <= k < |keys| ==> keys[k] in counts
    ensures |data| == |keys|
    ensures forall k :: 0 <= k < |keys| ==>
      data[k].name == keys[k] && data[k].value == counts[keys[k]] && data[k].color == ColorOf(keys[k])
  {
    seq(|keys|, k requires 0 <= k < |keys| => ChartEntry(keys[k], counts[keys[k]], ColorOf(keys[k])))
  }

  /** The sum of the entries' values, as the reduce that computes totalItems adds them. */
  function TotalValue(data: seq<ChartEntry>): nat
    decreases |data|
  {
    if data == [] then 0 else TotalValue(data[..|data| - 1]) + data[|data| - 1].value
  }

  /** The sum of `m[k]` over the keys `keys`. */
  function SumOver(keys: seq<string>, m: multiset<string>): nat
    decreases |keys|
  {
    if keys == [] then 0 else SumOver(keys[..|keys| - 1], m) + m[keys[|keys| - 1]]
  }

  /** Adding one occurrence of `x` raises the sum by one when `x` is listed (once), else not at all. */
  lemma {:induction false} SumOverAddOne(keys: seq<string>, m: multiset<string>, x: string)
    requires Distinct(keys)
    ensures SumOver(keys, m + multiset{x}) == SumOver(keys, m) + (if x in keys then 1 else 0)
    decreases |keys|
  {
    if keys != [] {
      var front := keys[..|keys| - 1];
      assert Distinct(front);
      SumOverAddOne(front, m, x);
      assert keys == front + [keys[|keys| - 1]];
      if x == keys[|keys| - 1] {
        assert x !in front;
      }
    }
  }

  /** Over the distinct labels of `s`, the counts add up to the length of `s`. */
  lemma {:induction false} SumOfCountsIsLength(s: seq<string>)
    ensures SumOver(FirstOccurrences(s), multiset(s)) == |s|
    decreases |s|
  {
    if s != [] {
      var front := s[..|s| - 1];
      var x := s[|s| - 1];
      assert s == front + [x];
      SumOfCountsIsLength(front);
      FirstOccurrencesOrder(front);
      var p := FirstOccurrences(front);
      SumOverAddOne(p, multiset(front), x);
      assert multiset(s) == multiset(front) + multiset{x};
      if x !in p {
        assert x !in front;
        assert (p + [x])[..|p|] == p;
      }
    }
  }

  /** The chart total over the key order and counts taken from `m`. */
  lemma {:induction false} TotalIsSumOver(keys: seq<string>, counts: map<string, nat>, m: multiset<string>)
    requires forall k :: 0 <= k < |keys| ==> keys[k] in counts && counts[keys[k]] == m[keys[k]]
    ensures TotalValue(ChartData(keys, counts)) == SumOver(keys, m)
    decreases |keys|
  {
    if keys != [] {
      var front := keys[..|keys| - 1];
      TotalIsSumOver(front, counts, m);
      var d := ChartData(keys, counts);
      assert d[..|d| - 1] == ChartData(front, counts);
    }
  }

  /** Every aggregated label occurs, so its count is at least one and its colour is from the table. */
  lemma EntriesOccurAndAreColoured(history: seq<ScanResult>, keys: seq<string>, counts: map<string, nat>)
    requires keys == FirstOccurrences(ItemLabels(history))
    requires forall k :: k in counts ==> counts[k] == multiset(ItemLabels(history))[k]
    requires forall k :: 0 <= k < |keys| ==> keys[k] in counts
    ensures forall k :: 0 <= k < |keys| ==> counts[keys[k]] >= 1 && ColorOf(keys[k]) != FallbackColor
  {
    var labels := ItemLabels(history);
    ItemLabelsAreCategoryLabels(history);
    forall k | 0 <= k < |keys|
      ensures counts[keys[k]] >= 1 && ColorOf(keys[k]) != FallbackColor
    {
      assert keys[k] in keys;
      var i := FirstIndex(labels, keys[k]);
      assert CategoryOfLabel(labels[i]).Some?;
    }
  }

  /** The chart total is the number of items over all scans. */
  lemma ChartTotalIsItemCount(history: seq<ScanResult>, keys: seq<string>, counts: map<string, nat>)
    requires keys == FirstOccurrences(ItemLabels(history))
    requires forall k :: k in counts ==> counts[k] == multiset(ItemLabels(history))[k]
    requires forall k :: 0 <= k < |keys| ==> keys[k] in counts
    ensures TotalValue(ChartData(keys, counts)) == ItemCount(history)
  {
    TotalIsSumOver(keys, counts, multiset(ItemLabels(history)));
    SumOfCountsIsLength(ItemLabels(history));
    ItemLabelsLength(history);
  }

  /**
   * The component: the placeholder for an empty history; otherwise one
   * entry per category that occurs, in first-occurrence order, valued at
   * its item count (at least one) and coloured from the table (the fallback
   * colour is never used), with the total equal to the number of items
   * over all scans.
   */
  method BuildChart(history: seq<ScanResult>) returns (view: ChartView)
    ensures history == [] <==> view == Placeholder
    ensures view.PieChart? ==> |view.data| == |FirstOccurrences(ItemLabels(history))|
    ensures view.PieChart? ==> forall k :: 0 <= k < |view.data| ==>
      && view.data[k].name == FirstOccurrences(ItemLabels(history))[k]
      && view.data[k].value == multiset(ItemLabels(history))[view.data[k].name]
      && view.data[k].value >= 1
      && view.data[k].color != FallbackColor
      && CategoryOfLabel(view.data[k].name).Some?
      && view.data[k].color == CategoryColor(CategoryOfLabel(view.data[k].name).value)
    ensures view.PieChart? ==> view.totalItems == ItemCount(history)
  {
    if |history| == 0 {
      return Placeholder;
    }
    var keys, counts := AggregateCounts(history);
    forall k | 0 <= k < |keys| ensures keys[k] in counts {
      assert keys[k] in keys;
    }
    var data := ChartData(keys, counts);
    EntriesOccurAndAreColoured(history, keys, counts);
    ChartTotalIsItemCount(history, keys, counts);
    view := PieChart(data, TotalValue(data));
  }
}
