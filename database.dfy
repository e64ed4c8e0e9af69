/**
 * The tag store as the program holds it: one database handle whose
 * `wallpapers` table set_tag and cycle_tag change in place.
 */
module Walltag {
  import opened Wrappers
  import opened TagTable
  import opened Cycling

  /** A connection to the tag database. */
  class Database {
    /** Whether the `wallpapers` table exists in the file. */
    var hasTable: bool
    /** The rows of `wallpapers`, committed after every write. */
    var rows: Table

    /** A database without the table holds no rows. */
    ghost predicate Valid()
      reads this
    {
      !hasTable ==> rows == map[]
    }

    /** Opens a database file; `stored` is its table, `None` when it has none yet. */
    constructor Connect(stored: Option<Table>)
      ensures Valid()
      ensures hasTable == stored.Some?
      ensures rows == if stored.Some? then stored.value else map[]
    {
      hasTable := stored.Some?;
      rows := if stored.Some? then stored.value else map[];
    }

    /** init_schema: `CREATE TABLE IF NOT EXISTS`, so rows already there are kept. */
    method InitSchema()
      requires Valid()
      modifies this
      ensures Valid() && hasTable
      ensures rows == old(rows)
    {
      hasTable := true;
    }

    /** set_tag: the upsert of one tag column of one row, committed. */
    method SetTag(key: string, category: string, tag: string)
      requires Valid() && hasTable
      requires category in TAG_COLUMNS
      modifies this
      ensures Valid() && hasTable
      ensures rows == Upsert(old(rows), key, category, tag)
      ensures GetTag(rows, key, category) == Some(tag)
      ensures forall k :: k in old(rows) && k != key ==> rows[k] == old(rows)[k]
    {
      rows := Upsert(rows, key, category, tag);
    }

    /**
     * cycle_tag: looks up the category's value list (raising on an unknown
     * category), reads the current value with get_tag and writes its
     * successor with set_tag.
     */
    method CycleTag(key: string, category: string) returns (outcome: Outcome<Error>)
      requires Valid() && hasTable
      modifies this
      ensures Valid() && hasTable
      ensures outcome.Fail? <==> category !in CATEGORY_VALUES
      ensures outcome.Fail? ==> outcome.error == UnknownCategory(category) && rows == old(rows)
      ensures outcome.Pass? ==> rows == Cycled(old(rows), key, category)
      ensures outcome.Pass? ==>
        && GetTag(rows, key, category).Some?
        && GetTag(rows, key, category).value in CATEGORY_VALUES[category]
    {
      if category !in CATEGORY_VALUES {
        return Fail(UnknownCategory(category));
      }
      var possibleValues := CATEGORY_VALUES[category];
      var currentValue := GetTag(rows, key, category);
      var nextValue := NextValue(possibleValues, currentValue);
      CategoryValuesShape(category);
      SetTag(key, category, nextValue);
      outcome := Pass;
    }
  }

  /**
   * The session of setting a color, reading it back and cycling it three
   * times: warm, cool, greyscale, and warm again.
   */
  method ColorSession(db: Database)
    requires db.Valid() && db.hasTable
    modifies db
    ensures db.Valid() && db.hasTable
    ensures GetTag(db.rows, "abc", "color") == Some("warm")
  {
    db.SetTag("abc", "color", "warm");
    ghost var warm := db.rows;
    assert Column(warm["abc"], "color") == COLORS[0];
    var outcome := db.CycleTag("abc", "color");
    CycleAdvances(warm, "abc", "color", 0);
    ghost var cool := db.rows;
    assert Column(cool["abc"], "color") == COLORS[1];
    outcome := db.CycleTag("abc", "color");
    CycleAdvances(cool, "abc", "color", 1);
    ghost var greyscale := db.rows;
    assert Column(greyscale["abc"], "color") == COLORS[2];
    outcome := db.CycleTag("abc", "color");
    CycleAdvances(greyscale, "abc", "color", 2);
  }
}
