/** The parts of Python's string semantics the program relies on:
    slicing with a bound that may be negative or past the end, and `sep.join`. */
module PyStr {

  /** Where Python puts the slice bound `k` in a sequence of length `len`:
      a negative bound counts from the end, and the result is clipped to 0..len. */
  function SliceIndex(k: int, len: nat): (c: nat)
    ensures c <= len
    ensures 0 <= k ==> c == if k <= len then k else len
  {
    if k < 0 then (if len + k < 0 then 0 else len + k)
    else if k <= len then k
    else len
  }

  /** `s[:k]` */
  function SliceTo<T>(s: seq<T>, k: int): (r: seq<T>)
    ensures r <= s && |r| == SliceIndex(k, |s|)
  {
    s[..SliceIndex(k, |s|)]
  }

  /** `s[k:]` */
  function SliceFrom<T>(s: seq<T>, k: int): (r: seq<T>)
    ensures |r| == |s| - SliceIndex(k, |s|) && r == s[|s| - |r|..]
  {
    s[SliceIndex(k, |s|)..]
  }

  /** `s[:k] + s[k:] == s` for every bound, negative ones included. */
  lemma SlicesRejoin<T>(s: seq<T>, k: int)
    ensures SliceTo(s, k) + SliceFrom(s, k) == s
  {
  }

  /** `sep.join(words)` */
  function Join(sep: string, words: seq<string>): (r: string)
    ensures |words| == 0 ==> r == ""
    ensures |words| == 1 ==> r == words[0]
    ensures |words| >= 2 ==> |r| >= |words[0]| + |sep| && r[..|words[0]| + |sep|] == words[0] + sep
    ensures |words| == 2 ==> r == words[0] + sep + words[1]
    ensures |words| == 3 ==> r == words[0] + sep + words[1] + sep + words[2]
    decreases |words|
  {
    if |words| == 0 then ""
    else if |words| == 1 then words[0]
    else words[0] + sep + Join(sep, words[1..])
  }
}
