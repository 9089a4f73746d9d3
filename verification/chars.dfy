/** Character classes of Python's `re` module, restricted to ASCII, and the
    maximal run of one class that a greedy `+` or `*` consumes. */
module Chars {

  /** `\d` */
  predicate IsDigit(c: char) {
    '0' <= c <= '9'
  }

  /** `\w`: letters, digits and the underscore. */
  predicate IsWordChar(c: char) {
    ('a' <= c <= 'z') || ('A' <= c <= 'Z') || IsDigit(c) || c == '_'
  }

  /** `\s`: space, and tab, line feed, vertical tab, form feed and carriage
      return, which are the consecutive code points 9 to 13. */
  predicate IsSpace(c: char) {
    c == ' ' || '\t' <= c <= '\r'
  }

  /** The character sets the log pattern repeats. */
  datatype Class =
    | IpChar          // [\d\.]
    | Digit           // \d
    | Word            // \w
    | Space           // \s
    | AnyButNewline   // .  (no DOTALL flag)

  predicate InClass(c: char, cls: Class) {
    match cls
    case IpChar => IsDigit(c) || c == '.'
    case Digit => IsDigit(c)
    case Word => IsWordChar(c)
    case Space => IsSpace(c)
    case AnyButNewline => c != '\n'
  }

  /** Every character of `s[i..j]` belongs to `cls`. */
  ghost predicate AllIn(s: string, i: nat, j: nat, cls: Class)
    requires i <= j <= |s|
  {
    forall k {:trigger InClass(s[k], cls)} :: i <= k < j ==> InClass(s[k], cls)
  }

  /** Where a greedy run of `cls` starting at `i` stops. */
  function RunEnd(s: string, i: nat, cls: Class): (j: nat)
    requires i <= |s|
    ensures i <= j <= |s|
    ensures AllIn(s, i, j, cls)
    ensures j == |s| || !InClass(s[j], cls)
    decreases |s| - i
  {
    if i < |s| && InClass(s[i], cls) then RunEnd(s, i + 1, cls) else i
  }

  /** No run of `cls` from `i` reaches past the greedy one. */
  lemma RunEndIsLongest(s: string, i: nat, j: nat, cls: Class)
    requires i <= j <= |s|
    requires AllIn(s, i, j, cls)
    ensures j <= RunEnd(s, i, cls)
  {
  }

  /** A run of `cls` from `i` that is followed by a character outside `cls`
      is the greedy run: no backtracking into it can succeed. */
  lemma RunEndIsForced(s: string, i: nat, j: nat, cls: Class)
    requires i <= j < |s|
    requires AllIn(s, i, j, cls)
    requires !InClass(s[j], cls)
    ensures j == RunEnd(s, i, cls)
  {
    RunEndIsLongest(s, i, j, cls);
  }
}
