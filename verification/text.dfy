/** String and path helpers with the semantics of the Python 2 standard
    library calls the build pipeline makes: `posixpath.join`,
    `posixpath.split`, `str.find`, `str.replace`, `str.capitalize` and the
    `in` test on strings. Paths are plain strings; nothing is normalised. */
module Text {
  import opened Outcomes

  type Path = string

  predicate StartsWith(s: string, prefix: string) {
    prefix <= s
  }

  predicate EndsWith(s: string, suffix: string) {
    |suffix| <= |s| && s[|s| - |suffix|..] == suffix
  }

  predicate IsAbsolute(p: Path) {
    |p| > 0 && p[0] == '/'
  }

  predicate EndsWithSlash(p: Path) {
    |p| > 0 && p[|p| - 1] == '/'
  }

  /** `posixpath.join(a, b)`: an absolute `b` replaces `a`; otherwise a
      separator is inserted unless `a` is empty or already ends with one. */
  function Join(a: Path, b: Path): Path {
    if IsAbsolute(b) then b
    else if a == "" || EndsWithSlash(a) then a + b
    else a + "/" + b
  }

  /** What `posixpath.join` raises when the path so far is None and the next
      component is relative: it calls `endswith` on None. */
  const JoinOnNone: Error := AttributeError("'NoneType' object has no attribute 'endswith'")

  /** `posixpath.join(a, b)` where the attribute `a` may be unset. Each
      component is checked for a leading '/' before the path so far is
      looked at, so an absolute `b` replaces even a missing `a`; a relative
      one raises AttributeError. */
  function JoinOnto(a: Option<Path>, b: Path): (r: Result<Path>)
    ensures IsAbsolute(b) ==> r == Ok(b)
    ensures r.Ok? <==> a.Some? || IsAbsolute(b)
    ensures r.Raised? ==> r.error == JoinOnNone
    ensures a.Some? ==> r == Ok(Join(a.value, b))
  {
    if IsAbsolute(b) then Ok(b)
    else
      match a
      case Some(d) => Ok(Join(d, b))
      case None => Raised(JoinOnNone)
  }

  /** `posixpath.join(a, b, c)` */
  function Join3(a: Path, b: Path, c: Path): Path {
    Join(Join(a, b), c)
  }

  /** `posixpath.join(a, b, c, d)` */
  function Join4(a: Path, b: Path, c: Path, d: Path): Path {
    Join(Join(Join(a, b), c), d)
  }

  /** Joining onto an ordinary directory inserts exactly one separator. */
  lemma JoinPlain(a: Path, b: Path)
    requires a != "" && !EndsWithSlash(a) && !IsAbsolute(b)
    ensures Join(a, b) == a + "/" + b
    ensures b != "" && !EndsWithSlash(b) ==> Join(a, b) != "" && !EndsWithSlash(Join(a, b))
    ensures StartsWith(Join(a, b), a + "/")
  {
    assert (a + "/" + b)[..|a| + 1] == a + "/";
  }

  /** Index of the last '/' in `p`, or -1 (`p.rfind('/')`). */
  function LastSlash(p: Path): (r: int)
    ensures -1 <= r < |p|
    ensures r >= 0 ==> p[r] == '/'
    ensures forall j :: r < j < |p| ==> p[j] != '/'
  {
    if p == [] then -1
    else if p[|p| - 1] == '/' then |p| - 1
    else LastSlash(p[..|p| - 1])
  }

  predicate AllSlashes(p: Path) {
    forall j :: 0 <= j < |p| ==> p[j] == '/'
  }

  /** `p.rstrip('/')` */
  function StripTrailingSlashes(p: Path): (r: Path)
    ensures r <= p
    ensures !EndsWithSlash(r)
    ensures AllSlashes(p[|r|..])
  {
    if EndsWithSlash(p) then StripTrailingSlashes(p[..|p| - 1]) else p
  }

  /** `posixpath.split(p)`: the text after the last '/' is the tail; the head
      loses its trailing slashes unless it consists of slashes only. */
  function Split(p: Path): (r: (Path, Path))
    ensures EndsWith(p, r.1)
    ensures forall j :: 0 <= j < |r.1| ==> r.1[j] != '/'
  {
    var i := LastSlash(p) + 1;
    var head := p[..i];
    var tail := p[i..];
    if head != "" && !AllSlashes(head) then (StripTrailingSlashes(head), tail) else (head, tail)
  }

  /** Splitting a joined path gives the two parts back, as long as the parts
      are the kind `Join` keeps apart: a non-empty directory that does not end
      in '/', and a single non-empty path component. */
  lemma SplitJoin(a: Path, b: Path)
    requires a != "" && !EndsWithSlash(a)
    requires b != "" && forall j :: 0 <= j < |b| ==> b[j] != '/'
    ensures Split(Join(a, b)) == (a, b)
  {
    var p := Join(a, b);
    assert p == a + "/" + b;
    LastSlashBeforeComponent(a, b);
    var head := p[..|a| + 1];
    assert head == a + "/";
    assert head[|a| - 1] != '/';
    assert !AllSlashes(head);
    assert StripTrailingSlashes(head) == a by {
      assert EndsWithSlash(head);
      assert head[..|head| - 1] == a;
    }
    assert p[|a| + 1..] == b;
  }

  lemma {:induction false} LastSlashBeforeComponent(a: Path, b: Path)
    requires forall j :: 0 <= j < |b| ==> b[j] != '/'
    ensures LastSlash(a + "/" + b) == |a|
    decreases |b|
  {
    var p := a + "/" + b;
    if b != [] {
      assert p[..|p| - 1] == a + "/" + b[..|b| - 1];
      LastSlashBeforeComponent(a, b[..|b| - 1]);
    }
  }

  /** `sub` occurs in `s` at index `i`. */
  predicate Occurs(s: string, sub: string, i: int) {
    0 <= i && i + |sub| <= |s| && s[i..i + |sub|] == sub
  }

  lemma OccursInMiddle(a: string, x: string, b: string)
    ensures Occurs(a + x + b, x, |a|)
  {
    assert (a + x + b)[|a|..|a| + |x|] == x;
  }

  /** Python's `s.find(sub, start)` for a non-negative start: the first index
      at or after `start` where `sub` occurs, or -1. */
  function FindFrom(s: string, sub: string, start: nat): (r: int)
    decreases |s| - start
    ensures r != -1 ==> start <= r && Occurs(s, sub, r)
    ensures r == -1 <==> forall i :: start <= i ==> !Occurs(s, sub, i)
    ensures r != -1 ==> forall i :: start <= i < r ==> !Occurs(s, sub, i)
  {
    if start + |sub| > |s| then -1
    else if s[start..start + |sub|] == sub then assert Occurs(s, sub, start); start
    else FindFrom(s, sub, start + 1)
  }

  /** Python's `sub in s`. */
  predicate Contains(s: string, sub: string) {
    FindFrom(s, sub, 0) != -1
  }

  lemma ContainsIff(s: string, sub: string)
    ensures Contains(s, sub) <==> exists i :: Occurs(s, sub, i)
  {
    if Contains(s, sub) {
      assert Occurs(s, sub, FindFrom(s, sub, 0));
    }
  }

  /** `s.replace(pat, '')` for a non-empty `pat`: occurrences are removed left
      to right, without overlap. */
  function RemoveAll(s: string, pat: string): (r: string)
    requires pat != ""
    ensures |r| <= |s|
    decreases |s|
  {
    if |s| < |pat| then s
    else if s[..|pat|] == pat then RemoveAll(s[|pat|..], pat)
    else [s[0]] + RemoveAll(s[1..], pat)
  }

  /** A string with no occurrence of `pat` is left unchanged by `RemoveAll`. */
  lemma {:induction false} RemoveAllAbsent(s: string, pat: string)
    requires pat != ""
    requires forall i :: !Occurs(s, pat, i)
    ensures RemoveAll(s, pat) == s
    decreases |s|
  {
    if |s| < |pat| {
    } else {
      assert !Occurs(s, pat, 0);
      assert s[..|pat|] != pat;
      forall i ensures !Occurs(s[1..], pat, i) {
        assert !Occurs(s, pat, i + 1);
        if 0 <= i && i + |pat| <= |s[1..]| {
          assert s[1..][i..i + |pat|] == s[i + 1..i + 1 + |pat|];
        }
      }
      RemoveAllAbsent(s[1..], pat);
    }
  }

  /** When the first character of `pat` does not recur inside it, an
      occurrence appended to a string free of `pat` cannot overlap with that
      string, so removing every occurrence gives the string back. */
  lemma {:induction false} RemoveAllAppended(d: string, pat: string)
    requires pat != ""
    requires forall j :: 1 <= j < |pat| ==> pat[j] != pat[0]
    requires forall i :: !Occurs(d, pat, i)
    ensures RemoveAll(d + pat, pat) == d
    decreases |d|
  {
    var s := d + pat;
    if d == [] {
      assert s == pat;
      assert s[|pat|..] == [];
    } else {
      assert s[..|pat|] != pat by {
        if |d| >= |pat| {
          assert s[..|pat|] == d[..|pat|];
          assert !Occurs(d, pat, 0);
        } else {
          assert s[|d|] == pat[0];
          assert s[..|pat|][|d|] != pat[|d|];
        }
      }
      assert s[1..] == d[1..] + pat;
      forall i ensures !Occurs(d[1..], pat, i) {
        assert !Occurs(d, pat, i + 1);
        if 0 <= i && i + |pat| <= |d[1..]| {
          assert d[1..][i..i + |pat|] == d[i + 1..i + 1 + |pat|];
        }
      }
      RemoveAllAppended(d[1..], pat);
      assert [s[0]] + d[1..] == d;
    }
  }

  function ToUpper(c: char): char {
    if 'a' <= c <= 'z' then (c as int - 'a' as int + 'A' as int) as char else c
  }

  function ToLower(c: char): char {
    if 'A' <= c <= 'Z' then (c as int - 'A' as int + 'a' as int) as char else c
  }

  /** Python 2 `str.capitalize()` on ASCII text: first character upper case,
      every other character lower case. */
  function Capitalize(s: string): (r: string)
    ensures |r| == |s|
    ensures |s| > 0 ==> r[0] == ToUpper(s[0])
    ensures forall i :: 1 <= i < |s| ==> r[i] == ToLower(s[i])
  {
    if s == [] then [] else [ToUpper(s[0])] + LowerAll(s[1..])
  }

  function LowerAll(s: string): (r: string)
    ensures |r| == |s|
    ensures forall i :: 0 <= i < |s| ==> r[i] == ToLower(s[i])
  {
    if s == [] then [] else [ToLower(s[0])] + LowerAll(s[1..])
  }

  /** Capitalising twice is the same as capitalising once. */
  lemma CapitalizeIdempotent(s: string)
    ensures Capitalize(Capitalize(s)) == Capitalize(s)
  {
    var c := Capitalize(s);
    var cc := Capitalize(c);
    assert |cc| == |c|;
    forall i | 0 <= i < |c| ensures cc[i] == c[i] {
    }
  }
}
