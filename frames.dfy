/** The frame list: which extracted frame files the poster uses. */
module Frames {

  function Min(a: nat, b: nat): nat { if a <= b then a else b }

  /** The list left by `while len(list) > n: list.pop()`: the first n
      entries, or all of them when there are no more than n. */
  function KeepFirst<T>(s: seq<T>, n: nat): (r: seq<T>)
    ensures |r| == Min(|s|, n)
    ensures r <= s
  {
    if |s| <= n then s else s[..n]
  }

  /** The list the old frame scan collects: every listed file appended after
      the existing entries when all of them open, and nothing at all when one
      of them fails to open (the scan clears the whole list and stops). */
  function Collected(existing: seq<string>, listing: seq<string>, opens: string -> bool): (r: seq<string>)
    ensures r == [] || r == existing + listing
    ensures (forall i :: 0 <= i < |listing| ==> opens(listing[i])) ==> r == existing + listing
    ensures (exists i :: 0 <= i < |listing| && !opens(listing[i])) ==> r == []
  {
    if forall i :: 0 <= i < |listing| ==> opens(listing[i]) then existing + listing else []
  }
}
