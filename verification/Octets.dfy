/**
 The octets the ICAP library reads and writes, and the machine integers it
 stores them in.

 An octet is a `char`.  Only the codes 0..255 occur on a socket; nothing below
 looks at a code above that, so every statement holds for octets in particular.
 */
module Octets {

  /** Size of the library's transfer buffer. */
  const BUFFER_SIZE := 1024

  const CRLF := "\r\n"

  /** An `unsigned int`. */
  type Word = n: int | 0 <= n < 0x1_0000_0000 witness 0

  /** The conversion of a non-negative number to `unsigned int`: the representative modulo 2^32. */
  function ToWord(n: nat): Word {
    n % 0x1_0000_0000
  }

  /** The conversion of a non-negative number to `int`: two's complement. */
  function ToInt32(n: nat): (r: int)
    ensures -0x8000_0000 <= r < 0x8000_0000
    ensures n < 0x8000_0000 ==> r == n
  {
    var w := ToWord(n);
    if w < 0x8000_0000 then w else w - 0x1_0000_0000
  }

  /** Both conversions keep the number modulo 2^32, each in its own range. */
  lemma Conversions(n: nat)
    ensures 0 <= ToWord(n) < 0x1_0000_0000 && (n - ToWord(n)) % 0x1_0000_0000 == 0
    ensures -0x8000_0000 <= ToInt32(n) < 0x8000_0000 && (n - ToInt32(n)) % 0x1_0000_0000 == 0
  {
  }

  /** Adding in `unsigned int` and converting at the end is adding without bounds and converting. */
  lemma WordAdd(a: nat, b: nat)
    ensures ToWord(ToWord(a) + b) == ToWord(a + b)
    ensures ToInt32(ToWord(a)) == ToInt32(a)
  {
  }

  /** The octet, held in a (signed) `char`, is greater than zero. */
  predicate Positive(c: char) {
    '\0' < c < '\U{80}'
  }

  /** `isspace` in the C locale. */
  predicate IsSpace(c: char) {
    c == ' ' || ('\t' <= c <= '\r')
  }

  /** The characters `isspace` accepts, one by one. */
  lemma SpaceTable(c: char)
    ensures IsSpace(c) <==> c as int in {9, 10, 11, 12, 13, 32}
  {
  }

  /** A CRLF pair ends at index `k`. */
  predicate EndsCrlf(t: string, k: nat)
    requires k < |t|
  {
    k > 0 && t[k - 1] == '\r' && t[k] == '\n'
  }

  /** Text that can stand on one line: positive octets without a CRLF pair. */
  ghost predicate LineText(t: string) {
    forall k :: 0 <= k < |t| ==> Positive(t[k]) && !EndsCrlf(t, k)
  }

  ghost predicate SuffixOf(a: string, b: string) {
    |a| <= |b| && a == b[|b| - |a|..]
  }

  lemma SuffixTransitive(a: string, b: string, c: string)
    requires SuffixOf(a, b) && SuffixOf(b, c)
    ensures SuffixOf(a, c)
  {
  }

  lemma Associative(a: string, b: string, c: string)
    ensures a + b + c == a + (b + c)
  {
  }
}
