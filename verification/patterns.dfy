/** The fragment of Python's `re` module that the VCS URL patterns use:
    literal characters, `.` (any character but a newline) and the capturing
    group `(.+)`. `re.search` semantics are kept: start positions are tried
    left to right, and each group first takes as much text as it can and then
    gives characters back one at a time until the rest of the pattern
    matches. */
module Patterns {
  import opened Outcomes

  datatype Token =
    | Lit(c: char)    // a literal character (`\.` included)
    | AnyChar         // `.`
    | Group           // `(.+)`

  type Pattern = seq<Token>

  /** The literal characters of `w`, in order. */
  function Lits(w: string): (p: Pattern)
    ensures |p| == |w|
    ensures forall k :: 0 <= k < |w| ==> p[k] == Lit(w[k])
  {
    seq(|w|, k requires 0 <= k < |w| => Lit(w[k]))
  }

  function GroupCount(p: Pattern): nat {
    if p == [] then 0 else (if p[0].Group? then 1 else 0) + GroupCount(p[1..])
  }

  predicate NoNewline(t: string) {
    forall j :: 0 <= j < |t| ==> t[j] != '\n'
  }

  predicate Accepts(t: Token, c: char) {
    match t
    case Lit(x) => c == x
    case AnyChar => c != '\n'
    case Group => false
  }

  /** The declarative meaning of a pattern: `p` matches all of `t`, and `gs`
      are the texts its groups captured, left to right. */
  ghost predicate Fits(p: Pattern, t: string, gs: seq<string>)
    decreases |p|
  {
    if p == [] then t == [] && gs == []
    else if p[0].Group? then
      |gs| > 0 && gs[0] != [] && NoNewline(gs[0]) && gs[0] <= t &&
      Fits(p[1..], t[|gs[0]|..], gs[1..])
    else
      |t| > 0 && Accepts(p[0], t[0]) && Fits(p[1..], t[1..], gs)
  }

  /** Where a match ended, and what its groups captured. */
  datatype Match = Match(end: nat, groups: seq<string>)

  /** The first match of `p` starting exactly at `i`, in the backtracking
      order of Python's matcher. */
  function MatchAt(p: Pattern, s: string, i: nat): (r: Option<Match>)
    requires i <= |s|
    ensures r.Some? ==> i <= r.value.end <= |s| && Fits(p, s[i..r.value.end], r.value.groups)
    ensures r.Some? ==> |r.value.groups| == GroupCount(p)
    decreases |p|, |s| - i + 1
  {
    if p == [] then Some(Match(i, []))
    else if p[0].Group? then TryGroup(p[1..], s, i, |s|)
    else if i < |s| && Accepts(p[0], s[i]) then
      var r := MatchAt(p[1..], s, i + 1);
      assert r.Some? ==> s[i..r.value.end][1..] == s[i + 1..r.value.end];
      r
    else None
  }

  /** A group starting at `start`, trying every end from `end` down to
      `start + 1`, each followed by a match of `rest`. */
  function TryGroup(rest: Pattern, s: string, start: nat, end: nat): (r: Option<Match>)
    requires start <= end <= |s|
    ensures r.Some? ==>
      (start <= r.value.end <= |s| && Fits([Group] + rest, s[start..r.value.end], r.value.groups))
    ensures r.Some? ==> |r.value.groups| == GroupCount(rest) + 1
    decreases |rest| + 1, end - start
  {
    if end <= start then None
    else
      var m := if NoNewline(s[start..end]) then MatchAt(rest, s, end) else None;
      if m.Some? then
        var gs := [s[start..end]] + m.value.groups;
        var t := s[start..m.value.end];
        assert gs[0] <= t && t[|gs[0]|..] == s[end..m.value.end] && gs[1..] == m.value.groups;
        assert ([Group] + rest)[1..] == rest;
        Some(Match(m.value.end, gs))
      else TryGroup(rest, s, start, end - 1)
  }

  /** `re.search(p, s)`: the groups of the match at the leftmost start
      position that has one. */
  function Search(p: Pattern, s: string): (r: Option<seq<string>>)
    ensures r.Some? ==> |r.value| == GroupCount(p)
  {
    SearchFrom(p, s, 0)
  }

  function SearchFrom(p: Pattern, s: string, k: nat): (r: Option<seq<string>>)
    requires k <= |s|
    ensures r.Some? ==> |r.value| == GroupCount(p)
    ensures r.Some? ==> exists i, j :: k <= i <= j <= |s| && Fits(p, s[i..j], r.value)
    decreases |s| - k
  {
    match MatchAt(p, s, k)
    case Some(m) => Some(m.groups)
    case None => if k == |s| then None else SearchFrom(p, s, k + 1)
  }

  /** A group can only fail to be found when no end position works. */
  lemma {:induction false} TryGroupFinds(rest: Pattern, s: string, start: nat, end: nat, e: nat)
    requires start < e <= end <= |s|
    requires NoNewline(s[start..e]) && MatchAt(rest, s, e).Some?
    ensures TryGroup(rest, s, start, end).Some?
    decreases end
  {
    if e < end && !(NoNewline(s[start..end]) && MatchAt(rest, s, end).Some?) {
      TryGroupFinds(rest, s, start, end - 1, e);
    }
  }

  /** The matcher is complete: whenever the pattern fits the text starting at
      `i`, the matcher finds some match there. */
  lemma {:induction false} MatchAtComplete(p: Pattern, s: string, i: nat, j: nat, gs: seq<string>)
    requires i <= j <= |s|
    requires Fits(p, s[i..j], gs)
    ensures MatchAt(p, s, i).Some?
    decreases |p|
  {
    if p == [] {
    } else if p[0].Group? {
      var e := i + |gs[0]|;
      assert s[i..j][..|gs[0]|] == s[i..e];
      assert s[i..j][|gs[0]|..] == s[e..j];
      MatchAtComplete(p[1..], s, e, j, gs[1..]);
      TryGroupFinds(p[1..], s, i, |s|, e);
    } else {
      assert s[i..j][1..] == s[i + 1..j];
      MatchAtComplete(p[1..], s, i + 1, j, gs);
    }
  }

  /** `re.search` finds nothing exactly when the pattern fits no substring. */
  lemma SearchNoneIff(p: Pattern, s: string)
    ensures Search(p, s).None? ==>
      forall i, j, gs :: 0 <= i <= j <= |s| ==> !Fits(p, s[i..j], gs)
    ensures Search(p, s).Some? ==>
      exists i, j :: 0 <= i <= j <= |s| && Fits(p, s[i..j], Search(p, s).value)
  {
    if Search(p, s).None? {
      forall i, j, gs | 0 <= i <= j <= |s| ensures !Fits(p, s[i..j], gs) {
        if Fits(p, s[i..j], gs) {
          MatchAtComplete(p, s, i, j, gs);
          SearchFromReaches(p, s, 0, i);
        }
      }
    } else {
    }
  }

  lemma {:induction false} SearchFromReaches(p: Pattern, s: string, k: nat, i: nat)
    requires k <= i <= |s|
    requires MatchAt(p, s, i).Some?
    ensures SearchFrom(p, s, k).Some?
    decreases i - k
  {
    if k < i && MatchAt(p, s, k).None? {
      SearchFromReaches(p, s, k + 1, i);
    }
  }

  /** `re.search` reports the match at the leftmost start position that has
      one: every earlier start is skipped. */
  lemma {:induction false} SearchFromLeftmost(p: Pattern, s: string, k: nat, i: nat)
    requires k <= i <= |s|
    requires forall j :: k <= j < i ==> MatchAt(p, s, j).None?
    requires MatchAt(p, s, i).Some?
    ensures SearchFrom(p, s, k) == Some(MatchAt(p, s, i).value.groups)
    decreases i - k
  {
    if k < i {
      SearchFromLeftmost(p, s, k + 1, i);
    }
  }

  /** A run of literals matches exactly where the text spells it out. */
  lemma LitsAt(w: string, s: string, i: nat)
    requires i <= |s|
    ensures MatchAt(Lits(w), s, i) ==
      if i + |w| <= |s| && s[i..i + |w|] == w then Some(Match(i + |w|, [])) else None
  {
    assert Lits(w) + [] == Lits(w);
    SimpleThen(Lits(w), [], s, i);
    if i + |w| <= |s| {
      if SimpleAt(Lits(w), s, i) {
        assert s[i..i + |w|] == w by {
          forall k | 0 <= k < |w| ensures s[i..i + |w|][k] == w[k] {
            assert Accepts(Lits(w)[k], s[i + k]);
          }
        }
      } else {
        var k :| 0 <= k < |w| && !Accepts(Lits(w)[k], s[i + k]);
        assert s[i..i + |w|][k] != w[k];
      }
    }
  }

  /** Patterns tried in list order; the groups of the first one that
      matches, or None when none does. */
  function FirstSearch(ps: seq<Pattern>, s: string): Option<seq<string>> {
    if ps == [] then None
    else if Search(ps[0], s).Some? then Search(ps[0], s)
    else FirstSearch(ps[1..], s)
  }

  /** `FirstSearch` answers None exactly when no pattern matches; otherwise
      it answers with the groups of a matching pattern that no earlier
      pattern precedes. */
  lemma {:induction false} FirstSearchSpec(ps: seq<Pattern>, s: string)
    ensures FirstSearch(ps, s).None? <==> forall i :: 0 <= i < |ps| ==> Search(ps[i], s).None?
    ensures FirstSearch(ps, s).Some? ==> exists i :: (0 <= i < |ps| && Search(ps[i], s) == FirstSearch(ps, s) &&
      forall j :: 0 <= j < i ==> Search(ps[j], s).None?)
  {
    if ps != [] && Search(ps[0], s).None? {
      var r := FirstSearch(ps[1..], s);
      FirstSearchSpec(ps[1..], s);
      assert forall i :: 0 < i < |ps| ==> ps[i] == ps[1..][i - 1];
      if r.Some? {
        var i :| 0 <= i < |ps[1..]| && Search(ps[1..][i], s) == r &&
          forall j :: 0 <= j < i ==> Search(ps[1..][j], s).None?;
        assert Search(ps[i + 1], s) == r;
        forall j | 0 <= j < i + 1 ensures Search(ps[j], s).None? {
          if j > 0 { assert ps[j] == ps[1..][j - 1]; }
        }
      }
    }
  }

  /** A run of literal and `.` tokens matched against the text. */
  predicate Simple(p: Pattern) {
    forall k :: 0 <= k < |p| ==> !p[k].Group?
  }

  predicate SimpleAt(p: Pattern, s: string, i: nat) {
    i + |p| <= |s| && forall k :: 0 <= k < |p| ==> Accepts(p[k], s[i + k])
  }

  /** A prefix without groups is matched character by character before the
      rest of the pattern is tried; it never backtracks. */
  lemma {:induction false} SimpleThen(p: Pattern, rest: Pattern, s: string, i: nat)
    requires Simple(p) && i <= |s|
    ensures MatchAt(p + rest, s, i) ==
      if SimpleAt(p, s, i) then MatchAt(rest, s, i + |p|) else None
    decreases |p|
  {
    if p == [] {
      assert p + rest == rest;
    } else {
      assert (p + rest)[0] == p[0];
      assert (p + rest)[1..] == p[1..] + rest;
      if i < |s| && Accepts(p[0], s[i]) {
        SimpleThen(p[1..], rest, s, i + 1);
        if SimpleAt(p[1..], s, i + 1) {
          forall k | 0 <= k < |p| ensures Accepts(p[k], s[i + k]) {
            if k > 0 { assert p[k] == p[1..][k - 1]; }
          }
        } else if i + |p| <= |s| {
          var k :| 0 <= k < |p[1..]| && !Accepts(p[1..][k], s[i + 1 + k]);
          assert p[k + 1] == p[1..][k];
        }
      }
    }
  }

  /** The group takes the longest text that lets the rest match: when every
      longer choice fails, the one at `e` is returned. */
  lemma {:induction false} TryGroupLongest(rest: Pattern, s: string, start: nat, end: nat, e: nat)
    requires start < e <= end <= |s|
    requires NoNewline(s[start..e]) && MatchAt(rest, s, e).Some?
    requires forall e' :: e < e' <= end ==> MatchAt(rest, s, e').None?
    ensures TryGroup(rest, s, start, end) ==
      Some(Match(MatchAt(rest, s, e).value.end, [s[start..e]] + MatchAt(rest, s, e).value.groups))
    decreases end
  {
    if e < end {
      assert MatchAt(rest, s, end).None?;
      TryGroupLongest(rest, s, start, end - 1, e);
    }
  }
}
