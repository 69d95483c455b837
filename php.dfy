/** The one PHP string builtin the stream wrapper relies on. */
module Php {
  import opened Wrappers

  /** `strpbrk($haystack, $charList)`: the rest of `haystack` from the first
      character that occurs in `charList`, or PHP's `false` (here `None`)
      when no character of `haystack` is in `charList`. */
  function Strpbrk(haystack: string, charList: string): (r: Option<string>)
    ensures r.Some? <==> exists i :: 0 <= i < |haystack| && haystack[i] in charList
    ensures r.Some? ==>
      exists i :: 0 <= i < |haystack| && r.value == haystack[i..] && haystack[i] in charList &&
        forall j :: 0 <= j < i ==> haystack[j] !in charList
  {
    if haystack == [] then None
    else if haystack[0] in charList then Some(haystack)
    else
      var rest := Strpbrk(haystack[1..], charList);
      assert forall i :: 1 <= i < |haystack| ==> haystack[i] == haystack[1..][i - 1];
      rest
  }
}
