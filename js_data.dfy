/** The parts of the LDAP API's JSON group records that the two role scripts
    look at, and JavaScript's truthiness on them. Both index.js and
    cek2role.js read the same records; each interprets them differently. */
module JsData {

  datatype Option<+T> = None | Some(value: T)

  /** An element of a `memberUid` array, or the single value stored in that
      field: a string, or any other JSON value (number, boolean, null, object,
      array), of which the scripts only ever ask whether it is truthy. */
  datatype Member = Str(s: string) | Other(truthy: bool)

  /** The `memberUid` field of a group record: absent (undefined), a single
      value that is not an array, or an array of values. */
  datatype MemberUid = Missing | One(value: Member) | Many(items: seq<Member>)

  /** A group record: `cn` and `dn` when present are strings, `gidNumber` is
      copied around but never inspected. */
  datatype Group = Group(cn: Option<string>, dn: Option<string>, gidNumber: Option<int>, memberUid: MemberUid)

  /** JavaScript truthiness of a member value: a string is truthy exactly when
      it is not empty. (Arrays are always truthy, so no case is needed for
      `Many`.) */
  predicate Truthy(m: Member)
  {
    match m
    case Str(s) => s != ""
    case Other(t) => t
  }

  /** Truthiness of an optional string field such as `cn` or `dn`. */
  predicate FieldTruthy(f: Option<string>)
  {
    f.Some? && f.value != ""
  }
}
