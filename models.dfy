/** The records of models/models.go. `base_value` (a float64) and `created_at`
    (a time.Time) are only stored and echoed by the element path, so they are
    carried as opaque values with no arithmetic on them. */
module Models {

  datatype Option<+T> = None | Some(value: T)

  /** An instant as the store reports it; never computed with. */
  datatype Timestamp = Timestamp(unixNanos: int)

  /** The bits of a float64 base value; never computed with. */
  datatype BaseValue = BaseValue(bits: bv64)

  /** A row of `categories`. */
  datatype Category = Category(
    id: int,
    name: string,
    description: string,
    createdAt: Timestamp)

  /** A row of `skating_elements`. */
  datatype Element = Element(
    id: int,
    name: string,
    code: string,
    categoryId: int,
    baseValue: BaseValue,
    difficultyLevel: string,
    createdAt: Timestamp)

  /** An element with the name of its category joined in; never stored. */
  datatype ElementDetail = ElementDetail(
    id: int,
    name: string,
    code: string,
    categoryId: int,
    categoryName: string,
    baseValue: BaseValue,
    difficultyLevel: string,
    createdAt: Timestamp)
}
