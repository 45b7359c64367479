/** Option and Result, the value-carrying stand-ins for Python's None and exceptions. */
module Wrappers {

  datatype Option<+T> = None | Some(value: T)

  datatype Result<+T, +E> = Ok(value: T) | Err(error: E)

  /** Python truthiness of an optional string: None and "" are falsy. */
  predicate Truthy(o: Option<string>) {
    o.Some? && o.value != ""
  }

  function Min(a: int, b: int): int {
    if a <= b then a else b
  }

  /** The first `n` elements of `s`, or all of them when there are fewer. */
  function Take<T>(s: seq<T>, n: nat): (r: seq<T>)
    ensures |r| == Min(n, |s|)
    ensures r == s[..|r|]
  {
    if n <= |s| then s[..n] else s
  }

  /** The index of the first `c` in `s`, or `|s|` when there is none. */
  function IndexOf(s: string, c: char): (n: nat)
    ensures n <= |s|
    ensures forall i :: 0 <= i < n ==> s[i] != c
    ensures n < |s| ==> s[n] == c
  {
    if s == [] || s[0] == c then 0 else 1 + IndexOf(s[1..], c)
  }

  /** A text free of `c`, followed by `c` or by nothing, puts the first `c` right after the text. */
  lemma {:induction false} IndexOfAfter(text: string, c: char, rest: string)
    requires forall i :: 0 <= i < |text| ==> text[i] != c
    requires rest == [] || rest[0] == c
    ensures IndexOf(text + rest, c) == |text|
  {
    if text != [] {
      assert (text + rest)[1..] == text[1..] + rest;
      IndexOfAfter(text[1..], c, rest);
    }
  }
}
