/** Text shaping used for console output: the `trail` truncator
    (bargein.py:9-10), the fetch status line built from it (bargein.py:46, 49),
    and the space padding of the report's format fields (bargein.py:27). */
module Format {
  import opened PyStr

  const Ellipsis := "..."

  /** Width the program always passes to `trail`. */
  const UrlWidth := 60

  /** `trail(s, n, ending)`: keep `s[:n - len(ending)]` and append `ending`
      exactly when something followed that cut. Python slicing is modelled as
      written, so a width below `|ending|` counts from the end of `s`. */
  function Trail(s: string, n: int, ending: string): (r: string)
    ensures n >= |ending| && |s| <= n - |ending| ==> r == s
    ensures n >= |ending| && |s| > n - |ending| ==> r == s[..n - |ending|] + ending && |r| == n
    ensures n >= |ending| ==> |r| <= n
  {
    SliceTo(s, n - |ending|) + (if SliceFrom(s, n - |ending|) == "" then "" else ending)
  }

  /** Truncating an already truncated string changes nothing. */
  lemma TrailIdempotent(s: string, n: int, ending: string)
    requires n >= |ending|
    ensures Trail(Trail(s, n, ending), n, ending) == Trail(s, n, ending)
  {
    var r := Trail(s, n, ending);
    if |s| > n - |ending| {
      assert r[..n - |ending|] == s[..n - |ending|];
    }
  }

  /** The edge case: a string of 58 to 60 characters already fits the width of
      60 but is still cut, because the cut point is `n - len(ending)` and not `n`. */
  lemma TrailCutsNearWidth(s: string)
    requires UrlWidth - |Ellipsis| < |s| <= UrlWidth
    ensures Trail(s, UrlWidth, Ellipsis) == s[..UrlWidth - |Ellipsis|] + Ellipsis
    ensures |Trail(s, UrlWidth, Ellipsis)| == UrlWidth
  {
  }

  /** With a width smaller than the ending, Python's negative slice bound makes
      the result longer than the width: `trail("abcdef", 2)` is `"abcde..."`. */
  lemma TrailBelowEndingWidth()
    ensures Trail("abcdef", 2, Ellipsis) == "abcde..."
  {
  }

  /** The line printed after each fetch: a success or failure marker followed by
      the final URL cut to 60 characters. */
  function StatusLine(ok: bool, url: string): (line: string)
    ensures |FetchMarker(ok)| <= |line| <= |FetchMarker(ok)| + UrlWidth
    ensures line[..|FetchMarker(ok)|] == FetchMarker(ok)
    ensures |url| <= UrlWidth - |Ellipsis| ==> line[|FetchMarker(ok)|..] == url
    ensures |url| > UrlWidth - |Ellipsis| ==> line[|FetchMarker(ok)|..] == url[..UrlWidth - |Ellipsis|] + Ellipsis
  {
    FetchMarker(ok) + Trail(url, UrlWidth, Ellipsis)
  }

  function FetchMarker(ok: bool): string
  {
    if ok then "[SUCCESS] [FETCH] " else "[   FAIL] [FETCH] "
  }

  /** A success line and a failure line never coincide. */
  lemma StatusLineTellsOutcome(url1: string, url2: string)
    ensures StatusLine(true, url1) != StatusLine(false, url2)
  {
    var a, b := StatusLine(true, url1), StatusLine(false, url2);
    assert a[1] != b[1];
  }

  function Spaces(k: nat): (r: string)
    ensures |r| == k && forall i :: 0 <= i < k ==> r[i] == ' '
  {
    seq(k, _ => ' ')
  }

  /** The `{:>w}` field: pad on the left with spaces up to `width`; never cut. */
  function RightAlign(s: string, width: nat): (r: string)
    ensures |r| == if |s| < width then width else |s|
    ensures r[|r| - |s|..] == s
    ensures forall i :: 0 <= i < |r| - |s| ==> r[i] == ' '
  {
    if |s| < width then Spaces(width - |s|) + s else s
  }

  /** The `{:<w}` field: pad on the right with spaces up to `width`; never cut. */
  function LeftAlign(s: string, width: nat): (r: string)
    ensures |r| == if |s| < width then width else |s|
    ensures r[..|s|] == s
    ensures forall i :: |s| <= i < |r| ==> r[i] == ' '
  {
    if |s| < width then s + Spaces(width - |s|) else s
  }
}
