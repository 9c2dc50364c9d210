/** Stored and returned documents: a document is a map from field name to a
    BSON/JSON-like value. */
module Values {
  import opened ObjectIds

  /** A `datetime.date` or `datetime.datetime`, known to the model only
      through the text its `isoformat()` returns. */
  datatype Moment = Moment(isoText: string)

  datatype Value =
    | Str(text: string)
    | Int(num: int)
    | Bool(flag: bool)
    | Date(moment: Moment)
    | Oid(oid: ObjectId)
    | Null

  type Record = map<string, Value>

  /** The store's internal identifier field. */
  const IdKey: string := "_id"
  /** The identifier field clients see. */
  const PublicIdKey: string := "id"
  /** The field every successful update stamps. */
  const UpdatedAtKey: string := "updated_at"
}
