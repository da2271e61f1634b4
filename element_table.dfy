/** What the SQL statements of repositories/element_repository.go do to the
    `skating_elements` and `categories` tables, stated on a value of the whole
    store. The repository class is proved against these functions. */
module ElementTable {
  import opened Models

  /** The errors the repository can return. */
  datatype RepoError =
    | NotFound                  // no row returned, or zero rows affected
    | NullCategoryName          // the LEFT JOIN found no category, and NULL cannot be scanned into a string
    | StoreFailure(message: string)  // any error the driver reports, passed through

  /** The text `err.Error()` yields, which the handler copies into its responses. */
  function Message(e: RepoError): (text: string)
    ensures e.NotFound? ==> text == "element not found"
    ensures e.StoreFailure? ==> text == e.message
    ensures e.NullCategoryName? ==> text != "element not found"
  {
    match e
    case NotFound => "element not found"
    case NullCategoryName => "sql: Scan error on column index 4, name \"category_name\": converting NULL to string is unsupported"
    case StoreFailure(m) => m
  }

  datatype Result<+T> = Ok(value: T) | Err(error: RepoError)

  /** The two tables keyed by id, and the next value of the id sequence
      (`skating_elements.id` is assigned by the store on INSERT). */
  datatype Db = Db(elements: map<int, Element>, categories: map<int, Category>, nextId: int)

  /** Every row sits under its own id, and every element id was drawn from the sequence. */
  predicate WellFormed(db: Db)
  {
    && (forall k :: k in db.elements ==> db.elements[k].id == k && k < db.nextId)
    && (forall k :: k in db.categories ==> db.categories[k].id == k)
  }

  // ---------------------------------------------------------------- ORDER BY id

  lemma Inhabited(ks: set<int>)
    requires ks != {}
    ensures exists x :: x in ks
  {
    if forall y :: y !in ks {
      assert false;
    }
  }

  lemma {:induction false} MinimumExists(ks: set<int>)
    requires ks != {}
    ensures exists m :: m in ks && forall k :: k in ks ==> m <= k
    decreases |ks|
  {
    Inhabited(ks);
    var x :| x in ks;
    if ks == {x} {
      assert forall k :: k in ks ==> x <= k;
    } else {
      var rest := ks - {x};
      MinimumExists(rest);
      var m :| m in rest && forall k :: k in rest ==> m <= k;
      var low := if x < m then x else m;
      forall k | k in ks ensures low <= k {
        if k != x { assert k in rest; }
      }
      assert low in ks;
    }
  }

  function Minimum(ks: set<int>): (m: int)
    requires ks != {}
    ensures m in ks && forall k :: k in ks ==> m <= k
  {
    MinimumExists(ks);
    var m :| m in ks && forall k :: k in ks ==> m <= k;
    m
  }

  /** The ids of a table in the order `ORDER BY id` returns them. */
  function SortedIds(ks: set<int>): (r: seq<int>)
    ensures |r| == |ks|
    ensures forall i :: 0 <= i < |r| ==> r[i] in ks
    ensures forall k :: k in ks ==> k in r
    ensures forall i, j :: 0 <= i < j < |r| ==> r[i] < r[j]
    decreases |ks|
  {
    if ks == {} then []
    else
      var m := Minimum(ks);
      [m] + SortedIds(ks - {m})
  }

  /** The rows `SELECT … FROM skating_elements ORDER BY id` yields. */
  function Rows(db: Db): (rows: seq<Element>)
    ensures |rows| == |db.elements|
    ensures forall i :: 0 <= i < |rows| ==> rows[i] in db.elements.Values
  {
    var ids := SortedIds(db.elements.Keys);
    seq(|ids|, i requires 0 <= i < |ids| => db.elements[ids[i]])
  }

  /** `rows` holds every element of `table` once, in strictly ascending id
      order, and nothing else. */
  predicate ListsInIdOrder(rows: seq<Element>, table: map<int, Element>)
  {
    && |rows| == |table|
    && (forall i, j :: 0 <= i < j < |rows| ==> rows[i].id < rows[j].id)
    && (forall i :: 0 <= i < |rows| ==> rows[i].id in table && table[rows[i].id] == rows[i])
    && (forall k :: k in table ==> table[k] in rows)
  }

  /** The listing is the whole table in id order; an empty table lists as the
      empty sequence rather than failing. */
  lemma RowsAreTheTableInIdOrder(db: Db)
    requires WellFormed(db)
    ensures ListsInIdOrder(Rows(db), db.elements)
    ensures Rows(db) == [] <==> db.elements == map[]
  {
    var ids := SortedIds(db.elements.Keys);
    var rows := Rows(db);
    assert forall i :: 0 <= i < |rows| ==> rows[i] == db.elements[ids[i]];
    forall i | 0 <= i < |rows| ensures rows[i].id == ids[i] {
    }
    forall k | k in db.elements ensures db.elements[k] in rows {
      var i :| 0 <= i < |ids| && ids[i] == k;
      assert rows[i] == db.elements[k];
    }
    if db.elements != map[] {
      var k :| k in db.elements;
      assert db.elements[k] in rows;
    }
  }

  // ---------------------------------------------------------------- GetByID

  /** The row of the LEFT JOIN: the element's columns with `c.name` in between. */
  function Joined(e: Element, categoryName: string): ElementDetail
  {
    ElementDetail(e.id, e.name, e.code, e.categoryId, categoryName, e.baseValue, e.difficultyLevel, e.createdAt)
  }

  /** `SELECT e.…, c.name FROM skating_elements e LEFT JOIN categories c
      ON e.category_id = c.id WHERE e.id = $1`, scanned into an ElementDetail. */
  function Lookup(db: Db, id: int): (r: Result<ElementDetail>)
    ensures r == Err(NotFound) <==> id !in db.elements
    ensures r.Ok? ==> id in db.elements && r.value.categoryId == db.elements[id].categoryId
                      && r.value.categoryId in db.categories
  {
    if id !in db.elements then Err(NotFound)
    else
      var e := db.elements[id];
      if e.categoryId !in db.categories then Err(NullCategoryName)
      else Ok(Joined(e, db.categories[e.categoryId].name))
  }

  /** GetByID fails with not-found exactly when the id is absent, and succeeds
      exactly when the element and its category are both present, with the
      element's own fields and the name of the category it references. */
  lemma LookupMeaning(db: Db, id: int)
    requires WellFormed(db)
    ensures Lookup(db, id) == Err(NotFound) <==> id !in db.elements
    ensures Lookup(db, id).Ok? <==> id in db.elements && db.elements[id].categoryId in db.categories
    ensures Lookup(db, id).Ok? ==>
      var d, e := Lookup(db, id).value, db.elements[id];
      && d.id == id == e.id && d.name == e.name && d.code == e.code
      && d.categoryId == e.categoryId && d.baseValue == e.baseValue
      && d.difficultyLevel == e.difficultyLevel && d.createdAt == e.createdAt
      && d.categoryId in db.categories
      && d.categoryName == db.categories[d.categoryId].name
  {
  }

  // ---------------------------------------------------------------- Create

  /** `INSERT INTO skating_elements (name, code, category_id, base_value,
      difficulty_level) VALUES (…) RETURNING id, created_at`: the payload's id
      and created_at are ignored; the store draws the id from its sequence and
      stamps `now`. Gives the new store and the payload with the returned id and
      created_at written back. */
  function Insert(db: Db, payload: Element, now: Timestamp): (r: (Db, Element))
    ensures WellFormed(db) ==> r.1.id !in db.elements && WellFormed(r.0)
    ensures r.0.elements.Keys == db.elements.Keys + {r.1.id} && r.0.elements[r.1.id] == r.1
    ensures r.0.nextId > r.1.id
  {
    var row := payload.(id := db.nextId, createdAt := now);
    (db.(elements := db.elements[row.id := row], nextId := db.nextId + 1), row)
  }

  /** Create keeps the payload's five columns, assigns an id no row had, stores
      exactly one new row and leaves every other row and the categories alone. */
  lemma InsertAddsOneFreshRow(db: Db, payload: Element, now: Timestamp)
    requires WellFormed(db)
    ensures var (db', row) := Insert(db, payload, now);
      && WellFormed(db')
      && row.id !in db.elements
      && row.name == payload.name && row.code == payload.code
      && row.categoryId == payload.categoryId && row.baseValue == payload.baseValue
      && row.difficultyLevel == payload.difficultyLevel && row.createdAt == now
      && db'.elements.Keys == db.elements.Keys + {row.id}
      && db'.elements[row.id] == row
      && (forall k :: k in db.elements ==> db'.elements[k] == db.elements[k])
      && db'.categories == db.categories
  {
  }

  /** Two creates in a row never hand out the same id, and the second id is larger. */
  lemma InsertIdsIncrease(db: Db, p1: Element, t1: Timestamp, p2: Element, t2: Timestamp)
    requires WellFormed(db)
    ensures var (db1, r1) := Insert(db, p1, t1);
      var (db2, r2) := Insert(db1, p2, t2);
      r1.id < r2.id && r1.id in db2.elements && db2.elements[r1.id] == r1
  {
  }

  /** Reading back a created element by its id gives the created row, with the
      name of its category; when the category is absent the scan of the NULL
      name fails. */
  lemma LookupAfterInsert(db: Db, payload: Element, now: Timestamp)
    requires WellFormed(db)
    ensures var (db', row) := Insert(db, payload, now);
      Lookup(db', row.id) ==
        if payload.categoryId in db.categories
        then Ok(Joined(row, db.categories[payload.categoryId].name))
        else Err(NullCategoryName)
  {
  }

  // ---------------------------------------------------------------- Update

  /** `UPDATE skating_elements SET name, code, category_id, base_value,
      difficulty_level`: the five columns come from the payload, id and
      created_at stay as stored. */
  function Overwrite(row: Element, payload: Element): Element
  {
    row.(name := payload.name, code := payload.code, categoryId := payload.categoryId,
         baseValue := payload.baseValue, difficultyLevel := payload.difficultyLevel)
  }

  /** `… WHERE id = $6` against the payload's id; zero rows affected is not-found. */
  function Replace(db: Db, payload: Element): (r: Result<Db>)
    ensures r.Err? <==> payload.id !in db.elements
    ensures r.Err? ==> r.error == NotFound
    ensures r.Ok? ==> r.value.elements.Keys == db.elements.Keys && r.value.categories == db.categories
  {
    if payload.id !in db.elements then Err(NotFound)
    else Ok(db.(elements := db.elements[payload.id := Overwrite(db.elements[payload.id], payload)]))
  }

  /** Update fails exactly when the id is absent, and then only with not-found;
      otherwise the row keeps its id and created_at, takes the five columns from
      the payload, and no other row, no category and no sequence value changes. */
  lemma ReplaceMeaning(db: Db, payload: Element)
    requires WellFormed(db)
    ensures Replace(db, payload).Err? <==> payload.id !in db.elements
    ensures Replace(db, payload).Err? ==> Replace(db, payload).error == NotFound
    ensures Replace(db, payload).Ok? ==>
      var db', id := Replace(db, payload).value, payload.id;
      && WellFormed(db')
      && db'.elements.Keys == db.elements.Keys
      && db'.elements[id].id == id && db'.elements[id].createdAt == db.elements[id].createdAt
      && db'.elements[id].name == payload.name && db'.elements[id].code == payload.code
      && db'.elements[id].categoryId == payload.categoryId
      && db'.elements[id].baseValue == payload.baseValue
      && db'.elements[id].difficultyLevel == payload.difficultyLevel
      && (forall k :: k in db.elements && k != id ==> db'.elements[k] == db.elements[k])
      && db'.categories == db.categories && db'.nextId == db.nextId
  {
  }

  /** Applying the same update twice leaves the store as applying it once. */
  lemma ReplaceIdempotent(db: Db, payload: Element)
    requires Replace(db, payload).Ok?
    ensures Replace(Replace(db, payload).value, payload) == Replace(db, payload)
  {
    var db1 := Replace(db, payload).value;
    assert Overwrite(db1.elements[payload.id], payload) == db1.elements[payload.id];
    assert db1.elements[payload.id := db1.elements[payload.id]] == db1.elements;
  }

  // ---------------------------------------------------------------- Delete

  /** `DELETE FROM skating_elements WHERE id = $1`; zero rows affected is not-found. */
  function Remove(db: Db, id: int): (r: Result<Db>)
    ensures r.Err? <==> id !in db.elements
    ensures r.Err? ==> r.error == NotFound
    ensures r.Ok? ==> r.value.elements.Keys == db.elements.Keys - {id} && r.value.categories == db.categories
  {
    if id !in db.elements then Err(NotFound)
    else Ok(db.(elements := db.elements - {id}))
  }

  /** Delete fails exactly when the id is absent, and then only with not-found;
      otherwise exactly that row is gone and nothing else changes. */
  lemma RemoveMeaning(db: Db, id: int)
    requires WellFormed(db)
    ensures Remove(db, id).Err? <==> id !in db.elements
    ensures Remove(db, id).Err? ==> Remove(db, id).error == NotFound
    ensures Remove(db, id).Ok? ==>
      var db' := Remove(db, id).value;
      && WellFormed(db')
      && db'.elements.Keys == db.elements.Keys - {id}
      && (forall k :: k in db'.elements ==> db'.elements[k] == db.elements[k])
      && db'.categories == db.categories && db'.nextId == db.nextId
  {
  }

  /** After a delete, the id reads back as not-found and is no longer listed. */
  lemma LookupAfterRemove(db: Db, id: int)
    requires WellFormed(db)
    requires Remove(db, id).Ok?
    ensures Lookup(Remove(db, id).value, id) == Err(NotFound)
    ensures forall e :: e in Rows(Remove(db, id).value) ==> e.id != id
  {
    var db' := Remove(db, id).value;
    RowsAreTheTableInIdOrder(db');
    forall e | e in Rows(db') ensures e.id != id {
      var i :| 0 <= i < |Rows(db')| && Rows(db')[i] == e;
    }
  }

  /** Deleting a second time reports not-found and changes nothing. */
  lemma RemoveTwice(db: Db, id: int)
    requires Remove(db, id).Ok?
    ensures Remove(Remove(db, id).value, id) == Err(NotFound)
  {
  }
}
