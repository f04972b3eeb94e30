/** The handful of JavaScript string operations the components use
    (`indexOf`, `includes`, `replace` with a string pattern, `split(c)[0]`,
    `padStart`, `slice`), each characterised by what it returns. */
module Text {
  import opened Base

  /** `pat` occurs in `s` starting at index `k`. */
  predicate OccursAt(s: string, pat: string, k: int)
  {
    0 <= k && k + |pat| <= |s| && s[k..k + |pat|] == pat
  }

  /** `s.indexOf(pat, i)` for `0 <= i <= |s|`: the first occurrence at or after `i`. */
  function IndexFrom(s: string, pat: string, i: nat): (r: Option<nat>)
    requires i <= |s|
    ensures r.Some? ==> i <= r.value && OccursAt(s, pat, r.value)
    ensures r.Some? ==> forall k :: i <= k < r.value ==> !OccursAt(s, pat, k)
    ensures r.None? ==> forall k :: i <= k <= |s| ==> !OccursAt(s, pat, k)
    decreases |s| - i
  {
    if OccursAt(s, pat, i) then Some(i)
    else if i == |s| then None
    else IndexFrom(s, pat, i + 1)
  }

  /** `s.indexOf(pat)`, with `None` standing for `-1`. */
  function IndexOf(s: string, pat: string): (r: Option<nat>)
    ensures r.Some? ==> OccursAt(s, pat, r.value)
    ensures r.Some? ==> forall k :: 0 <= k < r.value ==> !OccursAt(s, pat, k)
    ensures r.None? ==> forall k :: 0 <= k <= |s| ==> !OccursAt(s, pat, k)
  {
    IndexFrom(s, pat, 0)
  }

  /** `s.includes(pat)`: holds exactly when `pat` occurs somewhere in `s`. */
  predicate Contains(s: string, pat: string)
    ensures Contains(s, pat) <==> exists k :: OccursAt(s, pat, k)
  {
    IndexOf(s, pat).Some?
  }

  /** `s.replace(pat, rep)` with a string pattern: only the first occurrence
      of `pat` is replaced; without one, `s` is returned unchanged. */
  function ReplaceFirst(s: string, pat: string, rep: string): (r: string)
    ensures IndexOf(s, pat).None? ==> r == s
    ensures IndexOf(s, pat).Some? ==>
              var k := IndexOf(s, pat).value;
              r == s[..k] + rep + s[k + |pat|..]
  {
    match IndexOf(s, pat)
    case None => s
    case Some(k) => s[..k] + rep + s[k + |pat|..]
  }

  /** `s.split(c)[0]`: the text before the first `c`, or all of `s`. */
  function Before(s: string, c: char): (r: string)
    ensures |r| <= |s| && r == s[..|r|]
    ensures c !in r
    ensures |r| < |s| ==> s[|r|] == c
  {
    if |s| == 0 then ""
    else if s[0] == c then ""
    else [s[0]] + Before(s[1..], c)
  }

  /** The text before the first `c` is everything up to the first `c`. */
  lemma BeforeFirst(p: string, c: char, t: string)
    requires c !in p
    ensures Before(p + [c] + t, c) == p
  {
    var s := p + [c] + t;
    assert s[..|p|] == p && s[|p|] == c;
  }

  /** A prefix without `c` is kept whole in front of what follows it. */
  lemma {:induction false} BeforeAppend(p: string, t: string, c: char)
    requires c !in p
    ensures Before(p + t, c) == p + Before(t, c)
    decreases |p|
  {
    if |p| > 0 {
      assert (p + t)[1..] == p[1..] + t;
      BeforeAppend(p[1..], t, c);
      assert [p[0]] + (p[1..] + Before(t, c)) == p + Before(t, c);
    } else {
      assert p + t == t;
    }
  }

  /** `n` copies of `c`. */
  function Repeat(c: char, n: nat): (r: string)
    ensures |r| == n
    ensures forall i :: 0 <= i < n ==> r[i] == c
  {
    if n == 0 then "" else [c] + Repeat(c, n - 1)
  }

  /** `s.padStart(n, c)`: pads on the left up to length `n` and never truncates. */
  function PadStart(s: string, n: nat, c: char): (r: string)
    ensures |r| == Max(|s|, n)
    ensures r[|r| - |s|..] == s
    ensures forall i :: 0 <= i < |r| - |s| ==> r[i] == c
  {
    if |s| >= n then s else Repeat(c, n - |s|) + s
  }

  /** Padding a shorter string prepends exactly the missing copies of `c`. */
  lemma PadStartShorter(s: string, n: nat, c: char)
    requires |s| <= n
    ensures PadStart(s, n, c) == Repeat(c, n - |s|) + s
  {
  }

  /** The last `|t|` characters of `s + t` are `t`. */
  lemma TakeLastOfConcat(s: string, t: string)
    requires |t| > 0
    ensures TakeLast(s + t, |t|) == t
  {
    assert (s + t)[|s|..] == t;
  }

  /** `s.slice(k)` for `k >= 0`. */
  function Drop(s: string, k: nat): (r: string)
    ensures |r| == Max(|s| - k, 0)
    ensures k <= |s| ==> s == s[..k] + r
  {
    if k <= |s| then s[k..] else ""
  }

  /** `s.slice(0, k)` for `k >= 0`. */
  function Take(s: string, k: nat): (r: string)
    ensures |r| == Min(|s|, k)
    ensures r == s[..|r|]
  {
    if k <= |s| then s[..k] else s
  }

  /** `s.slice(-k)` for `k > 0`: the last `k` characters, or all of a shorter `s`. */
  function TakeLast(s: string, k: nat): (r: string)
    requires k > 0
    ensures |r| == Min(|s|, k)
    ensures r == s[|s| - |r|..]
  {
    if k <= |s| then s[|s| - k..] else s
  }
}
