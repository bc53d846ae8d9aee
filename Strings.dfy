/** Joining a list of strings, as `"".join(parts)` or `parts.join("")`. */
module Strings {

  function Concat(parts: seq<string>): string
  {
    if parts == [] then [] else parts[0] + Concat(parts[1..])
  }

  lemma ConcatPair(a: string, b: string, rest: seq<string>)
    ensures Concat([a, b] + rest) == a + b + Concat(rest)
  {
    assert ([a, b] + rest)[1..] == [b] + rest;
    assert ([b] + rest)[1..] == rest;
  }

  lemma ConcatThree(a: string, b: string, c: string)
    ensures Concat([a, b, c]) == a + b + c
  {
    ConcatPair(a, b, [c]);
    assert [a, b, c] == [a, b] + [c];
    assert [c][1..] == [];
  }
}
