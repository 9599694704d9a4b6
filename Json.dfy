/** The already-parsed save document: the top-level object as a map from
    property name to value, and the value kinds that loading distinguishes. */
module Json {

  /** A JSON value. `Array` holds the integers an array converts to; an
      `Object` lists its properties in enumeration order. Strings, floats,
      booleans and null are all `Other`: loading treats them alike, except
      as leaderboard values, which `Migration.WellFormed` excludes. */
  datatype Token =
    | Integer(value: int)
    | Array(items: seq<int>)
    | Object(fields: seq<(string, Token)>)
    | Other

  /** The top-level object of the document. */
  type Document = map<string, Token>

  /** The property names of an object. */
  function Keys(fields: seq<(string, Token)>): set<string> {
    set i | 0 <= i < |fields| :: fields[i].0
  }

  /** No property name occurs twice in an object. */
  predicate DistinctKeys(fields: seq<(string, Token)>) {
    forall i, j :: 0 <= i < j < |fields| ==> fields[i].0 != fields[j].0
  }
}
