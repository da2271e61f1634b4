/** The ElementRepository of repositories/element_repository.go, over an
    abstract store: the two tables and the id sequence are fields of the
    object, and each method changes them as its SQL statement does. A store
    failure is the `fault` parameter (None when the store answers, Some(text)
    when the driver reports an error); the clock the store stamps created_at
    with is the `now` parameter. */
module ElementRepository {
  import opened Models
  import opened ElementTable

  class ElementRepository {
    var elements: map<int, Element>      // skating_elements, by id
    var categories: map<int, Category>   // categories, by id
    var nextId: int                      // next value of the skating_elements id sequence

    /** The store this object stands for. */
    function State(): Db
      reads this
    {
      Db(elements, categories, nextId)
    }

    predicate Valid()
      reads this
    {
      WellFormed(State())
    }

    /** NewElementRepository: a repository over a store in the given state. */
    constructor (db: Db)
      requires WellFormed(db)
      ensures Valid() && State() == db
    {
      elements, categories, nextId := db.elements, db.categories, db.nextId;
    }

    /** GetAll: runs the ordered SELECT and appends one element per row. A
        failing query gives the error and no list. */
    method GetAll(fault: Option<string>) returns (r: Result<seq<Element>>)
      requires Valid()
      ensures fault.Some? <==> r.Err?
      ensures fault.Some? ==> r.error == StoreFailure(fault.value)
      ensures r.Ok? ==> r.value == Rows(State())
      ensures r.Ok? ==> ListsInIdOrder(r.value, elements)
    {
      if fault.Some? {
        return Err(StoreFailure(fault.value));
      }
      var ids := SortedIds(elements.Keys);
      var list: seq<Element> := [];
      var i := 0;
      while i < |ids|
        invariant 0 <= i <= |ids|
        invariant |list| == i
        invariant forall j :: 0 <= j < i ==> list[j] == elements[ids[j]]
      {
        list := list + [elements[ids[i]]];
        i := i + 1;
      }
      assert list == Rows(State());
      RowsAreTheTableInIdOrder(State());
      return Ok(list);
    }

    /** GetByID: the joined row for `id`; no row is not-found, a row whose
        category is missing fails the scan of the NULL category name. */
    method GetByID(id: int, fault: Option<string>) returns (r: Result<ElementDetail>)
      requires Valid()
      ensures fault.Some? ==> r == Err(StoreFailure(fault.value))
      ensures fault.None? ==> r == Lookup(State(), id)
      ensures fault.None? ==> (r == Err(NotFound) <==> id !in elements)
      ensures r.Ok? ==> id in elements && r.value == Joined(elements[id], categories[elements[id].categoryId].name)
    {
      if fault.Some? {
        return Err(StoreFailure(fault.value));
      }
      if id !in elements {
        return Err(NotFound);
      }
      var e := elements[id];
      if e.categoryId !in categories {
        return Err(NullCategoryName);
      }
      return Ok(Joined(e, categories[e.categoryId].name));
    }

    /** Create: inserts the payload's five columns and returns the caller's
        struct with the store-assigned id and created_at written into it. On a
        store error the struct and the store are as before. */
    method Create(element: Element, now: Timestamp, fault: Option<string>) returns (written: Element, err: Option<RepoError>)
      requires Valid()
      modifies this
      ensures Valid()
      ensures fault.Some? ==> err == Some(StoreFailure(fault.value)) && written == element && State() == old(State())
      ensures fault.None? ==> err == None && (State(), written) == Insert(old(State()), element, now)
      ensures fault.None? ==> written.id !in old(elements) && elements == old(elements)[written.id := written]
    {
      if fault.Some? {
        return element, Some(StoreFailure(fault.value));
      }
      written := element.(id := nextId, createdAt := now);
      elements := elements[written.id := written];
      nextId := nextId + 1;
      err := None;
    }

    /** Update: rewrites the five mutable columns of the row the payload's id
        names; zero rows affected is not-found and leaves the store as it was. */
    method Update(element: Element, fault: Option<string>) returns (err: Option<RepoError>)
      requires Valid()
      modifies this
      ensures Valid()
      ensures fault.Some? ==> err == Some(StoreFailure(fault.value)) && State() == old(State())
      ensures fault.None? && element.id !in old(elements) ==> err == Some(NotFound) && State() == old(State())
      ensures fault.None? && element.id in old(elements) ==>
        err == None && Replace(old(State()), element) == Ok(State())
    {
      if fault.Some? {
        return Some(StoreFailure(fault.value));
      }
      if element.id !in elements {
        return Some(NotFound);
      }
      ReplaceMeaning(State(), element);
      elements := elements[element.id := Overwrite(elements[element.id], element)];
      err := None;
    }

    /** Delete: removes the row with that id; zero rows affected is not-found
        and leaves the store as it was. */
    method Delete(id: int, fault: Option<string>) returns (err: Option<RepoError>)
      requires Valid()
      modifies this
      ensures Valid()
      ensures fault.Some? ==> err == Some(StoreFailure(fault.value)) && State() == old(State())
      ensures fault.None? && id !in old(elements) ==> err == Some(NotFound) && State() == old(State())
      ensures fault.None? && id in old(elements) ==>
        err == None && Remove(old(State()), id) == Ok(State()) && elements == old(elements) - {id}
    {
      if fault.Some? {
        return Some(StoreFailure(fault.value));
      }
      if id !in elements {
        return Some(NotFound);
      }
      elements := elements - {id};
      err := None;
    }
  }
}
