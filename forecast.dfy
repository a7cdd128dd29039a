/** The shaping step of fetchWeather: from the forecast item list of one response
    to the snapshot the page shows (current temperature, humidity, wind, sky code
    and the first eight precipitation probabilities), and the load state. */
module Forecast {
  import opened Wrappers
  import opened JsText

  datatype RawItem = RawItem(category: string, fcstTime: string, fcstValue: string)

  datatype RainEntry = RainEntry(time: string, value: string)

  datatype Snapshot = Snapshot(temp: string, reh: string, wsd: string, sky: Option<string>, rain: seq<RainEntry>)

  /** The outcomes of the shaping step; the 'loading' state the page sets before
      the request is not part of it. */
  datatype LoadState = Idle | Done

  /** Categories whose first value is kept as a current condition. */
  const CurrentCategories: set<string> := {"TMP", "REH", "WSD", "SKY"}

  /** The precipitation-probability category. */
  const RainCategory: string := "POP"

  /** How many precipitation entries are shown. */
  const RainLimit: nat := 8

  /** JavaScript truthiness of a string: only the empty string is falsy. */
  predicate Truthy(s: string) { s != "" }

  /** The item is of the category and carries a truthy value. */
  predicate Supplies(item: RawItem, category: string)
  {
    item.category == category && Truthy(item.fcstValue)
  }

  /** k is the first index whose item supplies the category. */
  predicate IsFirstSupplier(items: seq<RawItem>, category: string, k: int)
  {
    0 <= k < |items| && Supplies(items[k], category) &&
    forall j | 0 <= j < k :: !Supplies(items[j], category)
  }

  predicate Mentions(items: seq<RawItem>, category: string)
  {
    exists k | 0 <= k < |items| :: items[k].category == category
  }

  /** The value of the first item, in input order, that supplies the category. */
  function FirstTruthy(items: seq<RawItem>, category: string): (v: Option<string>)
    ensures v.Some? ==> Truthy(v.value)
  {
    if items == [] then None
    else if Supplies(items[0], category) then Some(items[0].fcstValue)
    else FirstTruthy(items[1..], category)
  }

  /** What the record holds for a category once every item has been scanned:
      the first truthy value; "" when the category came only with empty values;
      undefined when it never came. */
  function Stored(items: seq<RawItem>, category: string): (r: Option<string>)
    ensures r.Some? <==> Mentions(items, category)
    ensures r.Some? && !Truthy(r.value) ==> forall j | 0 <= j < |items| :: !Supplies(items[j], category)
  {
    FirstTruthyNone(items, category);
    var first := FirstTruthy(items, category);
    if first.Some? then first
    else if Mentions(items, category) then Some("")
    else None
  }

  /** The currentData record after the scan: its keys are current-conditions
      categories (RecordKeys says which). */
  function CurrentRecord(items: seq<RawItem>): (r: map<string, string>)
    ensures r.Keys <= CurrentCategories
  {
    map c | c in CurrentCategories && Stored(items, c).Some? :: Stored(items, c).value
  }

  /** currentData[key]: undefined when the key is absent. */
  function Lookup(record: map<string, string>, key: string): Option<string>
  {
    if key in record then Some(record[key]) else None
  }

  /** One entry of the precipitation series. */
  function RainEntryOf(item: RawItem): RainEntry
  {
    RainEntry(item.fcstTime, item.fcstValue + "%")
  }

  /** Every POP item of the list, in input order, as a series entry (before the
      cut): at most one entry per item. */
  function RainAll(items: seq<RawItem>): (r: seq<RainEntry>)
    ensures |r| <= |items|
  {
    if items == [] then []
    else
      var last := items[|items| - 1];
      RainAll(items[..|items| - 1]) + (if last.category == RainCategory then [RainEntryOf(last)] else [])
  }

  /** Number of items of a category. */
  function CountCategory(items: seq<RawItem>, category: string): nat
  {
    if items == [] then 0
    else (if items[0].category == category then 1 else 0) + CountCategory(items[1..], category)
  }

  function Min(a: int, b: int): int { if a < b then a else b }

  /** rainData.slice(0, 8): the first eight entries of the series, or all of
      them when there are fewer. */
  function RainShown(items: seq<RawItem>): (r: seq<RainEntry>)
    ensures r <= RainAll(items)
    ensures |r| == Min(RainLimit, |RainAll(items)|)
  {
    var rain := RainAll(items);
    rain[..Min(RainLimit, |rain|)]
  }

  /** The snapshot the page builds from an item list: each condition ends with
      its unit, SKY is present exactly when a SKY item came, and the series is a
      prefix of at most eight entries of the uncut one. */
  function SnapshotOf(items: seq<RawItem>): (r: Snapshot)
    ensures |r.temp| >= 2 && r.temp[|r.temp| - 2..] == "°C"
    ensures |r.reh| >= 1 && r.reh[|r.reh| - 1..] == "%"
    ensures |r.wsd| >= 4 && r.wsd[|r.wsd| - 4..] == " m/s"
    ensures r.sky.Some? <==> Mentions(items, "SKY")
    ensures r.rain <= RainAll(items) && |r.rain| <= RainLimit
  {
    var record := CurrentRecord(items);
    Snapshot(
      PlusString(Lookup(record, "TMP"), "°C"),
      PlusString(Lookup(record, "REH"), "%"),
      PlusString(Lookup(record, "WSD"), " m/s"),
      Lookup(record, "SKY"),
      RainShown(items))
  }

  /** The two-character hour label a series entry is shown with: time.slice(0, 2). */
  function HourLabel(entry: RainEntry): (hours: string)
    ensures hours <= entry.time
    ensures |entry.time| >= 2 ==> |hours| == 2
    ensures |entry.time| < 2 ==> hours == entry.time
  {
    Slice(entry.time, 2)
  }

  // ---------------------------------------------------------------------------
  // The scan itself

  /** Lines 97-125 of fetchWeather after the response is decoded: an absent item
      list yields no snapshot and the idle state; any list, empty or not, is
      scanned once with a set-if-falsy rule for the current conditions and a
      push for every POP item, and the series is cut to its first eight entries. */
  method ShapeForecast(items: Option<seq<RawItem>>) returns (snapshot: Option<Snapshot>, state: LoadState)
    ensures snapshot.None? <==> items.None?
    ensures state == Idle <==> items.None?
    ensures state == Done <==> items.Some?
    ensures items.Some? ==> snapshot == Some(SnapshotOf(items.value))
  {
    if items.None? {
      return None, Idle;
    }
    var list := items.value;
    var current: map<string, string> := map[];
    var rain: seq<RainEntry> := [];
    var i := 0;
    while i < |list|
      invariant 0 <= i <= |list|
      invariant current == CurrentRecord(list[..i])
      invariant rain == RainAll(list[..i])
    {
      var item := list[i];
      RecordStep(list[..i], item);
      assert list[..i + 1] == list[..i] + [item];
      assert (list[..i] + [item])[..i] == list[..i];
      if item.category in CurrentCategories {
        if !(item.category in current && Truthy(current[item.category])) {
          current := current[item.category := item.fcstValue];
        }
      }
      if item.category == RainCategory {
        rain := rain + [RainEntry(item.fcstTime, item.fcstValue + "%")];
      }
      i := i + 1;
    }
    assert list[..i] == list;
    snapshot := Some(Snapshot(
      PlusString(Lookup(current, "TMP"), "°C"),
      PlusString(Lookup(current, "REH"), "%"),
      PlusString(Lookup(current, "WSD"), " m/s"),
      Lookup(current, "SKY"),
      rain[..Min(RainLimit, |rain|)]));
    state := Done;
  }

  // ---------------------------------------------------------------------------
  // Current conditions: first truthy value wins

  /** Scanning a concatenation finds the first list's supplier if it has one. */
  lemma {:induction false} FirstTruthyAppend(s: seq<RawItem>, t: seq<RawItem>, category: string)
    ensures FirstTruthy(s + t, category) ==
      if FirstTruthy(s, category).Some? then FirstTruthy(s, category) else FirstTruthy(t, category)
  {
    if s != [] {
      assert (s + t)[1..] == s[1..] + t;
      FirstTruthyAppend(s[1..], t, category);
    } else {
      assert s + t == t;
    }
  }

  /** The value found is that of the first supplying item. */
  lemma {:induction false} FirstTruthyAt(items: seq<RawItem>, category: string, k: int)
    requires IsFirstSupplier(items, category, k)
    ensures FirstTruthy(items, category) == Some(items[k].fcstValue)
  {
    if k > 0 {
      assert !Supplies(items[0], category);
      assert IsFirstSupplier(items[1..], category, k - 1);
      FirstTruthyAt(items[1..], category, k - 1);
    }
  }

  /** Nothing is found exactly when no item supplies the category. */
  lemma {:induction false} FirstTruthyNone(items: seq<RawItem>, category: string)
    ensures FirstTruthy(items, category).None? <==> forall j | 0 <= j < |items| :: !Supplies(items[j], category)
  {
    if items != [] {
      FirstTruthyNone(items[1..], category);
      if FirstTruthy(items, category).None? {
        forall j | 0 <= j < |items| ensures !Supplies(items[j], category) {
          if j > 0 { assert items[j] == items[1..][j - 1]; }
        }
      } else if !Supplies(items[0], category) {
        var j :| 0 <= j < |items[1..]| && Supplies(items[1..][j], category);
        assert Supplies(items[j + 1], category);
      }
    }
  }

  /** The set-if-falsy rule: one more item changes the stored value of its own
      category, and only while that value is undefined or "". */
  lemma StoredStep(s: seq<RawItem>, x: RawItem, category: string)
    ensures Stored(s + [x], category) ==
      if x.category == category && !(Stored(s, category).Some? && Truthy(Stored(s, category).value))
      then Some(x.fcstValue) else Stored(s, category)
  {
    FirstTruthyAppend(s, [x], category);
    assert [x][1..] == [];
    assert Mentions(s + [x], category) <==> Mentions(s, category) || x.category == category by {
      if Mentions(s, category) {
        var k :| 0 <= k < |s| && s[k].category == category;
        assert (s + [x])[k] == s[k];
      }
      if x.category == category {
        assert (s + [x])[|s|] == x;
      }
      if Mentions(s + [x], category) && x.category != category {
        var k :| 0 <= k < |s + [x]| && (s + [x])[k].category == category;
        assert k < |s| && s[k] == (s + [x])[k];
      }
    }
  }

  /** The record after one more item, as the loop body updates it. */
  lemma RecordStep(s: seq<RawItem>, x: RawItem)
    ensures CurrentRecord(s + [x]) ==
      var r := CurrentRecord(s);
      if x.category in CurrentCategories && !(x.category in r && Truthy(r[x.category]))
      then r[x.category := x.fcstValue] else r
  {
    forall c ensures Stored(s + [x], c) ==
      if x.category == c && !(Stored(s, c).Some? && Truthy(Stored(s, c).value)) then Some(x.fcstValue) else Stored(s, c)
    {
      StoredStep(s, x, c);
    }
  }

  /** The record has a key for exactly the current-conditions categories that came
      in the list, with or without a value. */
  lemma RecordKeys(items: seq<RawItem>, c: string)
    ensures c in CurrentRecord(items) <==> c in CurrentCategories && Mentions(items, c)
  {
    var r := Stored(items, c);
  }

  /** A later item never replaces a stored truthy value. */
  lemma LaterItemsDoNotReplace(s: seq<RawItem>, t: seq<RawItem>, category: string)
    requires Stored(s, category).Some? && Truthy(Stored(s, category).value)
    ensures Stored(s + t, category) == Stored(s, category)
  {
    FirstTruthyAppend(s, t, category);
  }

  /** An item outside TMP/REH/WSD/SKY/POP changes neither the record nor the series. */
  lemma IgnoredCategoryChangesNothing(s: seq<RawItem>, x: RawItem)
    requires x.category !in CurrentCategories && x.category != RainCategory
    ensures CurrentRecord(s + [x]) == CurrentRecord(s)
    ensures RainAll(s + [x]) == RainAll(s)
  {
    RecordStep(s, x);
    assert (s + [x])[..|s|] == s;
  }

  /** A current-conditions category with a supplying item shows the first such
      item's value, with its unit. */
  lemma FirstSupplierShown(items: seq<RawItem>, category: string, k: int)
    requires category in CurrentCategories && IsFirstSupplier(items, category, k)
    ensures Lookup(CurrentRecord(items), category) == Some(items[k].fcstValue)
    ensures category == "TMP" ==> SnapshotOf(items).temp == items[k].fcstValue + "°C"
    ensures category == "REH" ==> SnapshotOf(items).reh == items[k].fcstValue + "%"
    ensures category == "WSD" ==> SnapshotOf(items).wsd == items[k].fcstValue + " m/s"
    ensures category == "SKY" ==> SnapshotOf(items).sky == Some(items[k].fcstValue)
  {
    FirstTruthyAt(items, category, k);
  }

  /** A category that came only with empty values is stored as "" and shown as the bare unit. */
  lemma BlankOnlyShown(items: seq<RawItem>, category: string)
    requires category in CurrentCategories && Mentions(items, category)
    requires forall j | 0 <= j < |items| :: !Supplies(items[j], category)
    ensures Lookup(CurrentRecord(items), category) == Some("")
    ensures category == "TMP" ==> SnapshotOf(items).temp == "°C"
    ensures category == "REH" ==> SnapshotOf(items).reh == "%"
    ensures category == "WSD" ==> SnapshotOf(items).wsd == " m/s"
    ensures category == "SKY" ==> SnapshotOf(items).sky == Some("")
  {
    FirstTruthyNone(items, category);
  }

  /** A category that never came is undefined, and JavaScript shows "undefined" before the unit. */
  lemma MissingShown(items: seq<RawItem>, category: string)
    requires category in CurrentCategories && !Mentions(items, category)
    ensures Lookup(CurrentRecord(items), category) == None
    ensures category == "TMP" ==> SnapshotOf(items).temp == "undefined°C"
    ensures category == "REH" ==> SnapshotOf(items).reh == "undefined%"
    ensures category == "WSD" ==> SnapshotOf(items).wsd == "undefined m/s"
    ensures category == "SKY" ==> SnapshotOf(items).sky == None
  {
    RecordKeys(items, category);
    assert Lookup(CurrentRecord(items), category) == None;
    assert "undefined" + "°C" == "undefined°C" && "undefined" + "%" == "undefined%" && "undefined" + " m/s" == "undefined m/s";
  }

  // ---------------------------------------------------------------------------
  // Precipitation series

  lemma {:induction false} CountAppend(s: seq<RawItem>, x: RawItem, category: string)
    ensures CountCategory(s + [x], category) == CountCategory(s, category) + (if x.category == category then 1 else 0)
  {
    if s != [] {
      assert (s + [x])[1..] == s[1..] + [x];
      CountAppend(s[1..], x, category);
    } else {
      assert [x][1..] == [];
    }
  }

  /** The uncut series has one entry per POP item. */
  lemma {:induction false} RainAllLength(items: seq<RawItem>)
    ensures |RainAll(items)| == CountCategory(items, RainCategory)
  {
    if items != [] {
      var init := items[..|items| - 1];
      RainAllLength(init);
      CountAppend(init, items[|items| - 1], RainCategory);
      assert init + [items[|items| - 1]] == items;
    }
  }

  /** The POP item at index i is the entry at the position counting the POP items before it. */
  lemma {:induction false} RainAllAt(items: seq<RawItem>, i: int)
    requires 0 <= i < |items| && items[i].category == RainCategory
    ensures CountCategory(items[..i], RainCategory) < |RainAll(items)|
    ensures RainAll(items)[CountCategory(items[..i], RainCategory)] == RainEntryOf(items[i])
  {
    var init := items[..|items| - 1];
    RainAllLength(init);
    if i == |items| - 1 {
      assert items[..i] == init;
    } else {
      assert init[..i] == items[..i];
      RainAllAt(init, i);
    }
  }

  /** Every entry of the uncut series comes from a POP item, at the position counting the POP items before it. */
  lemma {:induction false} RainAllFrom(items: seq<RawItem>, p: int)
    requires 0 <= p < |RainAll(items)|
    ensures exists i | 0 <= i < |items| ::
      items[i].category == RainCategory && CountCategory(items[..i], RainCategory) == p &&
      RainAll(items)[p] == RainEntryOf(items[i])
  {
    var n := |items| - 1;
    var init := items[..n];
    if p < |RainAll(init)| {
      RainAllFrom(init, p);
      var i :| 0 <= i < |init| && init[i].category == RainCategory &&
        CountCategory(init[..i], RainCategory) == p && RainAll(init)[p] == RainEntryOf(init[i]);
      assert init[..i] == items[..i];
      assert items[i] == init[i];
    } else {
      RainAllLength(init);
      assert items[..n] == init;
      assert items[n].category == RainCategory;
    }
  }

  /** The shown series: the POP entries in input order cut to the first eight. Its
      length is min(#POP, 8), it is a prefix of the uncut series, and every POP
      item with fewer than eight POP items before it sits at that position. */
  lemma RainSeriesShown(items: seq<RawItem>)
    ensures SnapshotOf(items).rain == RainShown(items)
    ensures |RainShown(items)| == Min(CountCategory(items, RainCategory), RainLimit)
    ensures RainShown(items) <= RainAll(items)
    ensures forall i | 0 <= i < |items| && items[i].category == RainCategory && CountCategory(items[..i], RainCategory) < RainLimit ::
      CountCategory(items[..i], RainCategory) < |RainShown(items)| &&
      RainShown(items)[CountCategory(items[..i], RainCategory)] == RainEntryOf(items[i])
  {
    RainAllLength(items);
    forall i | 0 <= i < |items| && items[i].category == RainCategory && CountCategory(items[..i], RainCategory) < RainLimit
      ensures CountCategory(items[..i], RainCategory) < |RainShown(items)|
      ensures RainShown(items)[CountCategory(items[..i], RainCategory)] == RainEntryOf(items[i])
    {
      RainAllAt(items, i);
    }
  }

  /** An empty list is not an absent one: it yields a snapshot of undefined
      conditions and an empty series. */
  lemma EmptyListSnapshot()
    ensures SnapshotOf([]) == Snapshot("undefined°C", "undefined%", "undefined m/s", None, [])
  {
    assert CurrentRecord([]) == map[] by {
      forall c | c in CurrentCategories ensures Stored([], c).None? {
        assert !Mentions([], c);
      }
    }
  }
}
