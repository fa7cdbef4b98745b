/** Utils.EscapePath: git reads a path argument starting with ':' as magic, so such a path is escaped. */
module Utils {
  import opened Base

  /**
   * Null and empty paths come back as they are; a path starting with ':' gets
   * one backslash in front; any other path is unchanged.
   */
  function EscapePath(path: Option<string>): (r: Option<string>)
    ensures path.None? <==> r.None?
    ensures r.Some? ==> |r.value| == 0 || r.value[0] != ':'
    ensures r.Some? && path.value != r.value ==> r.value == "\\" + path.value
  {
    match path
    case None => None
    case Some(p) => if |p| > 0 && p[0] == ':' then Some("\\" + p) else path
  }

  /** Escaping twice is escaping once: an escaped path starts with '\'. */
  lemma EscapePathIdempotent(path: Option<string>)
    ensures EscapePath(EscapePath(path)) == EscapePath(path)
  {
  }

  /** Only a path starting with ':' is changed. */
  lemma EscapePathChanges(p: string)
    ensures EscapePath(Some(p)) != Some(p) <==> |p| > 0 && p[0] == ':'
  {
    if |p| > 0 && p[0] == ':' {
      assert |EscapePath(Some(p)).value| == |p| + 1;
    }
  }
}
