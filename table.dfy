/**
 * The `wallpapers` table of tagger.py as a value: every row keyed by its
 * primary key `id`, with the three tag columns `color`, `people` and `time`.
 * The SQL statements of set_tag, get_all_tags and get_tag become functions
 * on this value.
 */
module TagTable {
  import opened Wrappers

  /** One row of `wallpapers` without its primary key. */
  datatype Row = Row(color: string, people: string, time: string)

  /** The whole table: `id` to the rest of its row; a key occurs at most once. */
  type Table = map<string, Row>

  /** The tag columns, which are also the tag categories. */
  const TAG_COLUMNS: set<string> := {"color", "people", "time"}

  /** The columns `SELECT *` reports for a row. */
  const ROW_COLUMNS: set<string> := {"id"} + TAG_COLUMNS

  /** The column defaults that init_schema's CREATE TABLE declares. */
  const DEFAULT_ROW: Row := Row("warm", "many", "night")

  /** The value stored in tag column `c` of row `r`. */
  function Column(r: Row, c: string): string
    requires c in TAG_COLUMNS
  {
    if c == "color" then r.color else if c == "people" then r.people else r.time
  }

  /** Two rows that agree on every tag column are the same row. */
  lemma RowsEqual(r: Row, r': Row)
    requires forall c :: c in TAG_COLUMNS ==> Column(r, c) == Column(r', c)
    ensures r == r'
  {
    assert Column(r, "color") == Column(r', "color");
    assert Column(r, "people") == Column(r', "people");
    assert Column(r, "time") == Column(r', "time");
  }

  /** Row `r` with tag column `c` set to `v` and the other columns kept. */
  function WithColumn(r: Row, c: string, v: string): (r': Row)
    requires c in TAG_COLUMNS
    ensures Column(r', c) == v
    ensures forall d :: d in TAG_COLUMNS && d != c ==> Column(r', d) == Column(r, d)
  {
    if c == "color" then r.(color := v)
    else if c == "people" then r.(people := v)
    else r.(time := v)
  }

  /**
   * The table after set_tag's `INSERT INTO wallpapers (id, c) VALUES (key, v)
   * ON CONFLICT(id) DO UPDATE SET c = v`: a new key gets a row of defaults but
   * for column `c`; an existing key has only column `c` overwritten.
   */
  function Upsert(t: Table, key: string, c: string, v: string): (t': Table)
    requires c in TAG_COLUMNS
    ensures t'.Keys == t.Keys + {key}
    ensures Column(t'[key], c) == v
    ensures key in t ==>
      forall d :: d in TAG_COLUMNS && d != c ==> Column(t'[key], d) == Column(t[key], d)
    ensures key !in t ==>
      forall d :: d in TAG_COLUMNS && d != c ==> Column(t'[key], d) == Column(DEFAULT_ROW, d)
    ensures forall k :: k in t && k != key ==> t'[k] == t[k]
  {
    var before := if key in t then t[key] else DEFAULT_ROW;
    t[key := WithColumn(before, c, v)]
  }

  /**
   * get_all_tags: the row whose id is `key` as a column-name-to-value
   * dictionary, or the empty dictionary when there is no such row.
   */
  function AllTags(t: Table, key: string): (tags: map<string, string>)
    ensures tags == map[] <==> key !in t
    ensures key in t ==> tags.Keys == ROW_COLUMNS && tags["id"] == key
    ensures key in t ==> forall c :: c in TAG_COLUMNS ==> tags[c] == Column(t[key], c)
  {
    if key !in t then map[]
    else
      var r := t[key];
      var tags := map["id" := key, "color" := r.color, "people" := r.people, "time" := r.time];
      assert "id" in tags;
      tags
  }

  /**
   * get_tag: the value of column `c` of row `key`, absent when the row is
   * absent or `c` is not one of its column names. Any string is accepted as
   * `c`, "id" included.
   */
  function GetTag(t: Table, key: string, c: string): (v: Option<string>)
    ensures v.None? <==> key !in t || c !in ROW_COLUMNS
    ensures key in t && c == "id" ==> v == Some(key)
    ensures key in t && c in TAG_COLUMNS ==> v == Some(Column(t[key], c))
  {
    var tags := AllTags(t, key);
    if c !in tags then None else Some(tags[c])
  }

  /** Reading a column back after setting it gives the value set. */
  lemma GetAfterSet(t: Table, key: string, c: string, v: string)
    requires c in TAG_COLUMNS
    ensures GetTag(Upsert(t, key, c, v), key, c) == Some(v)
  {
  }

  /**
   * Setting one column leaves every other column of that row as it was, or
   * at its default when the row is new, and leaves every other row alone.
   */
  lemma SetLeavesOthers(t: Table, key: string, c: string, v: string, k: string, d: string)
    requires c in TAG_COLUMNS
    requires k != key || d != c
    ensures k != key ==> GetTag(Upsert(t, key, c, v), k, d) == GetTag(t, k, d)
    ensures k == key && key in t ==> GetTag(Upsert(t, key, c, v), k, d) == GetTag(t, k, d)
    ensures k == key && key !in t ==>
      GetTag(Upsert(t, key, c, v), k, d) == GetTag(map[key := DEFAULT_ROW], k, d)
  {
  }

  /** After a set, the row's whole dictionary has the id and all three tag columns. */
  lemma AllTagsAfterSet(t: Table, key: string, c: string, v: string)
    requires c in TAG_COLUMNS
    ensures AllTags(Upsert(t, key, c, v), key).Keys == ROW_COLUMNS
    ensures AllTags(Upsert(t, key, c, v), key)["id"] == key
    ensures AllTags(Upsert(t, key, c, v), key)[c] == v
  {
  }

  /** A second set of the same column overrides the first: the last write wins. */
  lemma {:induction false} SetTwice(t: Table, key: string, c: string, v: string, w: string)
    requires c in TAG_COLUMNS
    ensures Upsert(Upsert(t, key, c, v), key, c, w) == Upsert(t, key, c, w)
  {
    var once, twice := Upsert(Upsert(t, key, c, v), key, c, w), Upsert(t, key, c, w);
    RowsEqual(once[key], twice[key]);
  }

  /** Setting a column of an existing row to the value it holds changes nothing. */
  lemma {:induction false} SetSameValue(t: Table, key: string, c: string)
    requires c in TAG_COLUMNS && key in t
    ensures Upsert(t, key, c, Column(t[key], c)) == t
  {
    var t' := Upsert(t, key, c, Column(t[key], c));
    RowsEqual(t'[key], t[key]);
  }
}
