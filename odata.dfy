/** String literals in OData filter expressions (OData Version 4.01, Part 2:
    URL Conventions, section 5.1.1.6.1): a literal is written between single
    quotes, and a single quote inside it is written as two single quotes. */
module OData {
  import opened Wrappers

  const Quote: char := '\''

  function CountChar(s: string, c: char): nat {
    if s == [] then 0 else (if s[0] == c then 1 else 0) + CountChar(s[1..], c)
  }

  /** `safe`: the text to place between the quotes of a literal whose value
      is `s`. */
  function Safe(s: string): (r: string)
    ensures |r| == |s| + CountChar(s, Quote)
  {
    if s == [] then []
    else (if s[0] == Quote then [Quote, Quote] else [s[0]]) + Safe(s[1..])
  }

  /** The value of a literal written with body `lit`, as the store reads it;
      `None` when a single quote stands alone (the literal would end there). */
  function Unescape(lit: string): Option<string> {
    if lit == [] then Some([])
    else if lit[0] != Quote then
      match Unescape(lit[1..])
      case Some(t) => Some([lit[0]] + t)
      case None => None
    else if |lit| >= 2 && lit[1] == Quote then
      match Unescape(lit[2..])
      case Some(t) => Some([Quote] + t)
      case None => None
    else None
  }

  /** Escaping round-trips: the store reads back exactly the value that was
      escaped, so an equality clause built with `Safe` compares against the
      caller's string itself, quotes included. */
  lemma {:induction false} UnescapeSafe(s: string)
    ensures Unescape(Safe(s)) == Some(s)
  {
    if s != [] {
      UnescapeSafe(s[1..]);
      var rest := Safe(s[1..]);
      if s[0] == Quote {
        assert Safe(s) == [Quote, Quote] + rest;
        assert Safe(s)[2..] == rest;
      } else {
        assert Safe(s) == [s[0]] + rest;
        assert Safe(s)[1..] == rest;
      }
      assert s == [s[0]] + s[1..];
    }
  }

  /** Two different values never produce the same literal. */
  lemma SafeInjective(a: string, b: string)
    requires Safe(a) == Safe(b)
    ensures a == b
  {
    UnescapeSafe(a);
    UnescapeSafe(b);
  }

  /** Characters other than the quote are copied unchanged and in order:
      a string without quotes is its own escape. */
  lemma {:induction false} SafeWithoutQuotes(s: string)
    requires Quote !in s
    ensures Safe(s) == s
  {
    if s != [] {
      assert forall c :: c in s[1..] ==> c in s;
      SafeWithoutQuotes(s[1..]);
      assert s == [s[0]] + s[1..];
    }
  }
}
