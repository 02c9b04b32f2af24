/** Small data types shared by the models: optional values, numbers and JSON values. */
module Common {

  datatype Option<+T> = None | Some(value: T)

  datatype Result<+T, +E> = Ok(value: T) | Err(error: E)

  /** A finite double, by its place in ascending order counted from zero. */
  datatype Double = Double(place: int)

  /** A JSON value. Object members keep the order they are written in. */
  datatype Json =
    | JNull
    | JBool(b: bool)
    | JNum(n: Double)
    | JStr(s: string)
    | JArr(items: seq<Json>)
    | JObj(members: seq<(string, Json)>)

  /** The page a LIMIT/OFFSET query returns from an ordered result. */
  function Page<T>(rows: seq<T>, limit: nat, offset: nat): (page: seq<T>)
    ensures |page| <= limit && (|page| < limit ==> offset + |page| >= |rows|)
    ensures offset <= |rows| ==> offset + |page| <= |rows| && page == rows[offset..offset + |page|]
  {
    if offset >= |rows| then []
    else if offset + limit <= |rows| then rows[offset..offset + limit]
    else rows[offset..]
  }

  /** The examples a report keeps of a list it counts in full. */
  function Sample<T>(all: seq<T>, limit: nat): seq<T> {
    if |all| <= limit then all else all[..limit]
  }

  lemma SampleMore<T>(all: seq<T>, x: T, limit: nat)
    ensures Sample(all + [x], limit) == if |all| < limit then Sample(all, limit) + [x] else Sample(all, limit)
  {
    if |all| >= limit {
      assert (all + [x])[..limit] == all[..limit];
    }
  }
}
