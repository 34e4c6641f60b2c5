/** Small types and string helpers shared by the other modules. */
module Prelude {

  datatype Option<+T> = None | Some(value: T)

  /** The simple case fold behind Go's strings.EqualFold, restricted to the
      characters that fold to an ASCII letter. */
  function Fold(c: char): (r: char) {
    if 'A' <= c <= 'Z' then c - 'A' + 'a'
    else if c == '\U{212A}' then 'k'
    else if c == '\U{017F}' then 's'
    else c
  }

  /** Two characters are one letter in different case, counting the Kelvin sign as a k and
      the long s as an s. */
  predicate SameLetter(c: char, d: char) {
    exists l :: 'a' <= l <= 'z' && SpellsLetter(c, l) && SpellsLetter(d, l)
  }

  predicate SpellsLetter(c: char, l: char)
    requires 'a' <= l <= 'z'
  {
    c == l || c == l - 'a' + 'A' || (l == 'k' && c == '\U{212A}') || (l == 's' && c == '\U{017F}')
  }

  /** Folding forgets case and nothing else. */
  lemma FoldForgetsCase(c: char, d: char)
    ensures Fold(c) == Fold(d) <==> c == d || SameLetter(c, d)
  {
    if Fold(c) == Fold(d) && c != d {
      assert SpellsLetter(c, Fold(c)) && SpellsLetter(d, Fold(c));
    }
  }

  predicate EqualFold(a: string, b: string) {
    |a| == |b| && forall i :: 0 <= i < |a| ==> Fold(a[i]) == Fold(b[i])
  }

  /** KindOf's test: a path with a brace in it is an OpenAPI template
      (internal/matches/expectation.go:88-93). */
  predicate IsTemplate(path: string) {
    '{' in path || '}' in path
  }
}
