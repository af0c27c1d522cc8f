/** The two-argument form of Python's `os.path.join` on a POSIX system. */
module PosixPath {
  const Sep: char := '/'

  predicate IsAbsolute(p: string)
  {
    |p| > 0 && p[0] == Sep
  }

  /**
   * An absolute second component replaces the first; otherwise the two are
   * joined with one separator, none being added when the first is empty or
   * already ends with one.
   */
  function Join(a: string, b: string): (r: string)
    ensures |b| <= |r| && r[|r| - |b|..] == b
    ensures IsAbsolute(b) ==> r == b
    ensures !IsAbsolute(b) ==> r == a + b || r == a + [Sep] + b
    ensures !IsAbsolute(b) ==> (r == a + b <==> a == [] || a[|a| - 1] == Sep)
  {
    if IsAbsolute(b) then b
    else if a == [] || a[|a| - 1] == Sep then a + b
    else a + [Sep] + b
  }

  /** Under a relative directory, different names give different paths. */
  lemma JoinInjective(a: string, b1: string, b2: string)
    requires !IsAbsolute(a)
    requires Join(a, b1) == Join(a, b2)
    ensures b1 == b2
  {
    var mid := if a == [] || a[|a| - 1] == Sep then a else a + [Sep];
    if !IsAbsolute(b1) && !IsAbsolute(b2) {
      assert Join(a, b1) == mid + b1 && Join(a, b2) == mid + b2;
      assert b1 == (mid + b1)[|mid|..];
      assert b2 == (mid + b2)[|mid|..];
    }
  }
}
