/** Small shared definitions. */
module Common {
  datatype Option<+T> = None | Some(value: T)

  /** The cap on nesting and on stored indents (packages/core/src/doc/blockTree.ts:21). */
  const MAX_BLOCK_DEPTH: nat := 32

  predicate Distinct<T(==)>(s: seq<T>) {
    forall i, j :: 0 <= i < j < |s| ==> s[i] != s[j]
  }

  /** `c` is `s` with some elements left out. */
  ghost predicate IsSubseq<T(!new)>(c: seq<T>, s: seq<T>) {
    c == [] || (s != [] && ((c[0] == s[0] && IsSubseq(c[1..], s[1..])) || IsSubseq(c, s[1..])))
  }

  /** The characters a JavaScript regular expression calls `\\s`, which are also the ones `trim` removes. */
  predicate IsSpace(c: char) {
    || '\t' <= c <= '\r'
    || c == ' '
    || c in "\U{A0}\U{1680}\U{2028}\U{2029}\U{202F}\U{205F}\U{3000}\U{FEFF}"
    || '\U{2000}' <= c <= '\U{200A}'
  }

  predicate Blank(s: string) {
    forall c <- s :: IsSpace(c)
  }

  function Min(a: int, b: int): int {
    if a < b then a else b
  }

  function Max(a: int, b: int): int {
    if a < b then b else a
  }
}
