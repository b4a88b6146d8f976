/**
 * `strip_place`: drop the pagination parameters from a request URL.
 *
 * The source applies Python's `re.match("(.+)&start=.+&end=.+", url)` and returns group 1;
 * when nothing matches, `.group` is taken on `None`, the `AttributeError` is caught and the
 * URL comes back unchanged. In Python's regular expressions `.` matches any character but
 * a newline, `re.match` anchors at the start only (the match may end before the end of the
 * string), and the greedy `(.+)` makes group 1 the longest prefix for which the rest of the
 * pattern still matches.
 */
module NavPath {
  import opened Wrappers

  const START_MARK: string := "&start="
  const END_MARK: string := "&end="

  /** Every character of `s` is matched by the regular-expression `.` (no newline). */
  predicate NoNewline(s: string) {
    forall i :: 0 <= i < |s| ==> s[i] != '\n'
  }

  /**
   * `.+&end=.+` matches at the start of `t` with its first `.+` covering `t[..i]`
   * (the last `.+` needs one character, and may take more).
   */
  predicate EndSplitAt(t: string, i: int) {
    1 <= i && i + |END_MARK| < |t| && NoNewline(t[..i]) &&
    t[i..i + |END_MARK|] == END_MARK && t[i + |END_MARK|] != '\n'
  }

  /** `.+&end=.+` matches at the start of `t`, for some split. */
  ghost predicate EndPartMatches(t: string) {
    exists i :: EndSplitAt(t, i)
  }

  /** The whole pattern `(.+)&start=.+&end=.+` matches at the start of `url` with group 1 equal to `url[..k]`. */
  ghost predicate MatchesWithGroupAt(url: string, k: int) {
    1 <= k && k + |START_MARK| <= |url| && NoNewline(url[..k]) &&
    url[k..k + |START_MARK|] == START_MARK &&
    EndPartMatches(url[k + |START_MARK|..])
  }

  /** The length of the longest newline-free prefix: how far the greedy `.+` first reaches. */
  function FirstLineLength(s: string): (n: nat)
    ensures n <= |s| && NoNewline(s[..n])
    ensures n < |s| ==> s[n] == '\n'
  {
    if s == [] || s[0] == '\n' then 0
    else
      var n := 1 + FirstLineLength(s[1..]);
      assert s[..n] == [s[0]] + s[1..][..n - 1];
      n
  }

  /** Tries the splits `t[..i]`, `t[..i+1]`, ... of `.+&end=.+`, stopping at the first newline. */
  function ScanEnd(t: string, i: nat): (found: bool)
    requires 1 <= i <= |t| + 1 && NoNewline(t[..i - 1])
    ensures found <==> exists j :: i <= j && EndSplitAt(t, j)
    ensures i == 1 ==> (found <==> EndPartMatches(t))
    decreases |t| - i
  {
    if i + |END_MARK| >= |t| then false
    else if t[i - 1] == '\n' then
      assert forall j :: i <= j <= |t| ==> t[..j][i - 1] == '\n';
      false
    else
      assert t[..i] == t[..i - 1] + [t[i - 1]];
      if t[i..i + |END_MARK|] == END_MARK && t[i + |END_MARK|] != '\n' then
        assert EndSplitAt(t, i);
        true
      else
        ScanEnd(t, i + 1)
  }

  /** `&start=.+&end=.+` matches at the start of `s`. */
  function RestMatches(s: string): (b: bool)
    ensures b <==> |s| >= |START_MARK| && s[..|START_MARK|] == START_MARK &&
                   EndPartMatches(s[|START_MARK|..])
  {
    |s| >= |START_MARK| && s[..|START_MARK|] == START_MARK && ScanEnd(s[|START_MARK|..], 1)
  }

  /**
   * Backtracking of the greedy group: tries group 1 = `url[..k]`, `url[..k-1]`, ..., `url[..1]`
   * and returns the length of the first (so the longest) one that lets the pattern match.
   */
  function LongestGroup(url: string, k: nat): (g: Option<nat>)
    requires k <= |url| && NoNewline(url[..k])
    ensures g.Some? ==> 1 <= g.value <= k && MatchesWithGroupAt(url, g.value)
    ensures g.Some? ==> forall k' :: g.value < k' <= k ==> !MatchesWithGroupAt(url, k')
    ensures g.None? ==> forall k' :: k' <= k ==> !MatchesWithGroupAt(url, k')
  {
    if k == 0 then None
    else
      assert |url[k..]| >= |START_MARK| ==>
        url[k..][..|START_MARK|] == url[k..k + |START_MARK|] && url[k..][|START_MARK|..] == url[k + |START_MARK|..];
      if RestMatches(url[k..]) then Some(k)
      else
        assert url[..k - 1] == url[..k][..k - 1];
        LongestGroup(url, k - 1)
  }

  /**
   * `strip_place(url)`: group 1 of the match when the pattern matches, the URL itself when
   * `re.match` returns `None`.
   */
  function StripPlace(url: string): (r: string)
    ensures (forall k :: !MatchesWithGroupAt(url, k)) ==> r == url
    ensures (exists k :: MatchesWithGroupAt(url, k)) ==>
      MatchesWithGroupAt(url, |r|) && r == url[..|r|] &&
      forall k :: MatchesWithGroupAt(url, k) ==> k <= |r|
  {
    var n := FirstLineLength(url);
    var g := LongestGroup(url, n);
    assert forall k :: n < k <= |url| ==> url[..k][n] == '\n';
    match g
    case Some(k) => url[..k]
    case None => url
  }

  /** When the pattern matches, the result is a non-empty proper prefix followed in the URL by `&start=`. */
  lemma StripPlaceMatchedShape(url: string)
    requires exists k :: MatchesWithGroupAt(url, k)
    ensures var r := StripPlace(url);
      0 < |r| < |url| && url[..|r|] == r && url[|r|..|r| + |START_MARK|] == START_MARK
  {
  }

  /** The pattern matches a paginated URL with group 1 ending where the path ends. */
  lemma MatchesAtPathEnd(path: string, start: string, end: string)
    requires |path| >= 1 && NoNewline(path)
    requires |start| >= 1 && NoNewline(start)
    requires |end| >= 1 && NoNewline(end)
    ensures MatchesWithGroupAt(path + (START_MARK + start + END_MARK + end), |path|)
  {
    var t := start + END_MARK + end;
    var url := path + (START_MARK + t);
    assert START_MARK + start + END_MARK + end == START_MARK + t;
    assert url[..|path|] == path;
    assert url[|path|..|path| + |START_MARK|] == START_MARK;
    assert url[|path| + |START_MARK|..] == t;
    assert t[..|start|] == start && t[|start|..|start| + |END_MARK|] == END_MARK;
    assert EndSplitAt(t, |start|);
  }

  /** No `&start=` begins inside the appended `&start=...&end=...` after its first character. */
  lemma NoStartMarkAfterPath(path: string, start: string, end: string, k: int)
    requires '&' !in start && '&' !in end
    requires |path| < k && k + |START_MARK| <= |path + (START_MARK + start + END_MARK + end)|
    ensures (path + (START_MARK + start + END_MARK + end))[k..k + |START_MARK|] != START_MARK
  {
    var s := START_MARK + start + END_MARK + end;
    var url := path + s;
    var off := k - |path|;
    assert url[k] == s[off] && url[k + 1] == s[off + 1];
    assert url[k..k + |START_MARK|][1] == url[k + 1];
    if off < |START_MARK| {
      assert s[off] == START_MARK[off];
    } else if off < |START_MARK| + |start| {
      assert s[off] == start[off - |START_MARK|];
    } else if off == |START_MARK| + |start| {
      assert s[off + 1] == END_MARK[1];
    } else if off < |START_MARK| + |start| + |END_MARK| {
      assert s[off] == END_MARK[off - |START_MARK| - |start|];
    } else {
      assert s[off] == end[off - |START_MARK| - |start| - |END_MARK|];
    }
  }

  /**
   * Appending pagination parameters to a navigation path and stripping them again gives the
   * path back, when the parameter values hold no `&` (as decimal offsets do not).
   */
  lemma StripPlaceRemovesPagination(path: string, start: string, end: string)
    requires |path| >= 1 && NoNewline(path)
    requires |start| >= 1 && NoNewline(start) && '&' !in start
    requires |end| >= 1 && NoNewline(end) && '&' !in end
    ensures StripPlace(path + START_MARK + start + END_MARK + end) == path
  {
    var suffix := START_MARK + start + END_MARK + end;
    var url := path + suffix;
    assert url == path + START_MARK + start + END_MARK + end;
    MatchesAtPathEnd(path, start, end);
    forall k | MatchesWithGroupAt(url, k)
      ensures k <= |path|
    {
      if k > |path| {
        NoStartMarkAfterPath(path, start, end, k);
      }
    }
    assert url[..|path|] == path;
  }
}
