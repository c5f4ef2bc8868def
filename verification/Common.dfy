/** Vocabulary shared by the whole model: optional values and C strings. */
module Common {
  datatype Option<+T> = None | Some(value: T)

  const NUL: char := '\0'
  const CRLF: string := "\r\n"

  /** A text that a C string can hold: no byte of it terminates it early. */
  ghost predicate NulFree(s: string) {
    NUL !in s
  }

  /** `strncat(acc, &c, 1)`: appending the terminator appends nothing. */
  function Cat(acc: string, c: char): string {
    if c == NUL then acc else acc + [c]
  }

  /** The two bytes a, b never stand next to each other in s. */
  ghost predicate NoPair(s: string, a: char, b: char) {
    forall i | 0 <= i < |s| - 1 :: !(s[i] == a && s[i + 1] == b)
  }

  /** s holds no line end. */
  ghost predicate NoCrlf(s: string) {
    NoPair(s, '\r', '\n')
  }

  /** s holds no header separator ": ". */
  ghost predicate NoSeparator(s: string) {
    NoPair(s, ':', ' ')
  }

  lemma Assoc<T>(a: seq<T>, b: seq<T>, c: seq<T>)
    ensures a + b + c == a + (b + c)
  {
  }
}
