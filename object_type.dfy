/** Git object kinds and their names (ObjectType.cs). */
module ObjectTypes {
  import opened Base

  /** A C# enum: any int can be stored, four values are declared. */
  newtype ObjectType = int

  const ObjectCommit: ObjectType := 0
  const ObjectTree: ObjectType := 1
  const ObjectBlob: ObjectType := 2
  const ObjectTag: ObjectType := 3

  predicate IsDeclared(t: ObjectType) {
    ObjectCommit <= t <= ObjectTag
  }

  /** ObjectTypeOpt.ToObjectType: case-sensitive lookup of a kind name; null for any other text. */
  function ToObjectType(msg: string): (r: Option<ObjectType>)
    ensures r.Some? ==> IsDeclared(r.value) && ToTypeString(r.value) == msg
    ensures r.None? <==> msg !in {"commit", "tree", "blob", "tag"}
  {
    match msg
    case "commit" => Some(ObjectCommit)
    case "tree" => Some(ObjectTree)
    case "blob" => Some(ObjectBlob)
    case "tag" => Some(ObjectTag)
    case _ => None
  }

  /** ToTypeString: the lowercase name of a declared kind, "" for any other value. */
  function ToTypeString(t: ObjectType): (s: string)
    ensures s == "" <==> !IsDeclared(t)
  {
    if t == ObjectCommit then "commit"
    else if t == ObjectTree then "tree"
    else if t == ObjectBlob then "blob"
    else if t == ObjectTag then "tag"
    else ""
  }

  /** Reading a kind's name back gives the kind. */
  lemma ObjectTypeRoundTrip(t: ObjectType)
    requires IsDeclared(t)
    ensures ToObjectType(ToTypeString(t)) == Some(t)
  {
  }

  /** Different declared kinds have different names. */
  lemma ToTypeStringInjective(a: ObjectType, b: ObjectType)
    requires IsDeclared(a) && IsDeclared(b) && a != b
    ensures ToTypeString(a) != ToTypeString(b)
  {
  }
}
