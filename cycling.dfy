/**
 * The cycling policy of tagger.py: each category has a fixed ordered list of
 * values, and cycle_tag writes the successor of the stored value, wrapping
 * from the last back to the first.
 */
module Cycling {
  import opened Wrappers
  import opened TagTable

  const COLORS: seq<string> := ["warm", "cool", "greyscale"]
  const PEOPLE: seq<string> := ["many", "few", "none"]
  const TIME: seq<string> := ["night", "day", "dawn/dusk"]

  /** The value list of each category that can be cycled. */
  const CATEGORY_VALUES: map<string, seq<string>> :=
    map["color" := COLORS, "people" := PEOPLE, "time" := TIME]

  /** The errors cycle_tag can raise. */
  datatype Error =
    | UnknownCategory(category: string)  // the KeyError of CATEGORY_VALUES[category]

  predicate Distinct(s: seq<string>)
  {
    forall i, j :: 0 <= i < j < |s| ==> s[i] != s[j]
  }

  /**
   * The cyclable categories are exactly the tag columns; every value list has
   * three distinct values and starts with its column's schema default.
   */
  lemma CategoryValuesShape(c: string)
    ensures c in CATEGORY_VALUES <==> c in TAG_COLUMNS
    ensures c in CATEGORY_VALUES ==>
      && |CATEGORY_VALUES[c]| == 3
      && Distinct(CATEGORY_VALUES[c])
      && CATEGORY_VALUES[c][0] == Column(DEFAULT_ROW, c)
  {
  }

  /** Python's `list.index`: the position of the first occurrence of `x`. */
  function IndexOf(s: seq<string>, x: string): (i: nat)
    requires x in s
    ensures i < |s| && s[i] == x
    ensures forall j :: 0 <= j < i ==> s[j] != x
  {
    if s[0] == x then 0 else 1 + IndexOf(s[1..], x)
  }

  /**
   * The value cycle_tag writes when the current value is `current`: an absent
   * or unlisted current value counts as the first of the list; the result is
   * the value after the current one, modulo the list's length.
   */
  function NextValue(values: seq<string>, current: Option<string>): (next: string)
    requires |values| > 0
    ensures next in values
    ensures current.None? || current.value !in values ==> next == values[1 % |values|]
    ensures Distinct(values) ==>
      forall i :: 0 <= i < |values| && current == Some(values[i]) ==>
        next == values[(i + 1) % |values|]
  {
    var start := if current.None? || current.value !in values then values[0] else current.value;
    values[(IndexOf(values, start) + 1) % |values|]
  }

  /**
   * cycle_tag on a table: an unknown category raises before anything is read
   * or written; otherwise the next value is stored with set_tag's upsert.
   */
  function Cycle(t: Table, key: string, c: string): (r: Result<Table, Error>)
    ensures r.Err? <==> c !in CATEGORY_VALUES
    ensures r.Err? ==> r.error == UnknownCategory(c)
    ensures r.Ok? ==> r.value.Keys == t.Keys + {key}
    ensures r.Ok? ==> forall k :: k in t && k != key ==> r.value[k] == t[k]
    ensures r.Ok? ==> Column(r.value[key], c) in CATEGORY_VALUES[c]
    ensures r.Ok? ==> forall d :: d in TAG_COLUMNS && d != c ==>
      Column(r.value[key], d) == Column(if key in t then t[key] else DEFAULT_ROW, d)
  {
    if c !in CATEGORY_VALUES then Err(UnknownCategory(c))
    else
      var values := CATEGORY_VALUES[c];
      Ok(Upsert(t, key, c, NextValue(values, GetTag(t, key, c))))
  }

  /** The table after a cycle of a known category. */
  function Cycled(t: Table, key: string, c: string): Table
    requires c in CATEGORY_VALUES
  {
    Cycle(t, key, c).value
  }

  /** A stored value at index `i` of its list is replaced by the one at `(i + 1) % 3`. */
  lemma {:induction false} CycleAdvances(t: Table, key: string, c: string, i: nat)
    requires c in CATEGORY_VALUES && key in t
    requires i < |CATEGORY_VALUES[c]| && Column(t[key], c) == CATEGORY_VALUES[c][i]
    ensures GetTag(Cycled(t, key, c), key, c) == Some(CATEGORY_VALUES[c][(i + 1) % 3])
  {
    CategoryValuesShape(c);
  }

  /** A missing row, or a stored value outside the list, cycles to the list's second value. */
  lemma {:induction false} CycleFromUnlisted(t: Table, key: string, c: string)
    requires c in CATEGORY_VALUES
    requires key !in t || Column(t[key], c) !in CATEGORY_VALUES[c]
    ensures GetTag(Cycled(t, key, c), key, c) == Some(CATEGORY_VALUES[c][1])
  {
    CategoryValuesShape(c);
  }

  /**
   * Cycling a missing row creates it with the defaults and the list's second
   * value, exactly as if the row had held its defaults before: each default
   * is the first value of its list.
   */
  lemma {:induction false} CycleMissingRow(t: Table, key: string, c: string)
    requires c in CATEGORY_VALUES && key !in t
    ensures Cycled(t, key, c) == t[key := WithColumn(DEFAULT_ROW, c, CATEGORY_VALUES[c][1])]
    ensures Cycled(t, key, c) == Cycled(t[key := DEFAULT_ROW], key, c)
  {
    CategoryValuesShape(c);
    var values := CATEGORY_VALUES[c];
    assert NextValue(values, GetTag(t, key, c)) == values[1];
    assert NextValue(values, GetTag(t[key := DEFAULT_ROW], key, c)) == values[1];
  }

  /** Cycling a listed value is setting the next value of the list. */
  lemma {:induction false} CycleSetsNext(t: Table, key: string, c: string, i: nat)
    requires c in CATEGORY_VALUES && key in t
    requires i < |CATEGORY_VALUES[c]| && Column(t[key], c) == CATEGORY_VALUES[c][i]
    ensures Cycled(t, key, c) == Upsert(t, key, c, CATEGORY_VALUES[c][(i + 1) % 3])
  {
    CategoryValuesShape(c);
  }

  /** Three cycles of one category bring a listed value, and the whole table, back. */
  lemma {:induction false} CycleThrice(t: Table, key: string, c: string)
    requires c in CATEGORY_VALUES && key in t && Column(t[key], c) in CATEGORY_VALUES[c]
    ensures Cycled(Cycled(Cycled(t, key, c), key, c), key, c) == t
  {
    CategoryValuesShape(c);
    var values := CATEGORY_VALUES[c];
    var i0 := IndexOf(values, Column(t[key], c));
    var i1 := if i0 < 2 then i0 + 1 else 0;
    var i2 := if i1 < 2 then i1 + 1 else 0;
    assert (i0 + 1) % 3 == i1 && (i1 + 1) % 3 == i2 && (i2 + 1) % 3 == i0;
    var t1 := Cycled(t, key, c);
    CycleSetsNext(t, key, c, i0);
    assert t1 == Upsert(t, key, c, values[i1]);
    var t2 := Cycled(t1, key, c);
    CycleSetsNext(t1, key, c, i1);
    assert t2 == Upsert(t1, key, c, values[i2]);
    SetTwice(t, key, c, values[i1], values[i2]);
    assert t2 == Upsert(t, key, c, values[i2]);
    var t3 := Cycled(t2, key, c);
    CycleSetsNext(t2, key, c, i2);
    assert t3 == Upsert(t2, key, c, values[i0]);
    SetTwice(t, key, c, values[i2], values[i0]);
    SetSameValue(t, key, c);
  }

  /** A category without a value list raises and leaves the table as it was. */
  lemma CycleUnknownCategory(t: Table, key: string, c: string)
    requires c !in TAG_COLUMNS
    ensures Cycle(t, key, c) == Err(UnknownCategory(c))
  {
  }
}
