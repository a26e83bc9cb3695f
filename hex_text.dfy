/**
 * Hexadecimal digits, as Python renders them in `hashlib`'s `hexdigest()` and
 * in `str(uuid.UUID)` (lower case), and as it parses them (either case).
 */
module HexText {
  import opened Wrappers

  type Nibble = x: int | 0 <= x < 16

  predicate IsLowerHexChar(c: char) {
    ('0' <= c <= '9') || ('a' <= c <= 'f')
  }

  /** The lower-case digit for a nibble. */
  function HexDigit(n: Nibble): (c: char)
    ensures IsLowerHexChar(c)
    ensures c as int < 0x80
  {
    if n < 10 then ('0' as int + n) as char else ('a' as int + n - 10) as char
  }

  /** The value of a hexadecimal digit of either case, or None for any other character. */
  function HexValue(c: char): (r: Option<Nibble>)
    ensures r.Some? ==> c != '-'
    ensures IsLowerHexChar(c) ==> r.Some? && HexDigit(r.value) == c
  {
    if '0' <= c <= '9' then Some(c as int - '0' as int)
    else if 'a' <= c <= 'f' then Some(c as int - 'a' as int + 10)
    else if 'A' <= c <= 'F' then Some(c as int - 'A' as int + 10)
    else None
  }

  /** Every nibble, rendered as one lower-case digit. */
  function Hex(ns: seq<Nibble>): (s: string)
    ensures |s| == |ns|
    ensures forall i :: 0 <= i < |s| ==> IsLowerHexChar(s[i]) && s[i] as int < 0x80
  {
    seq(|ns|, i requires 0 <= i < |ns| => HexDigit(ns[i]))
  }

  /** The nibbles of a string made only of hexadecimal digits, or None. */
  function ParseHex(s: string): (r: Option<seq<Nibble>>)
    ensures r.Some? ==> |r.value| == |s|
  {
    if s == [] then Some([])
    else match (HexValue(s[0]), ParseHex(s[1..]))
      case (Some(n), Some(rest)) => Some([n] + rest)
      case _ => None
  }

  lemma HexAppend(a: seq<Nibble>, b: seq<Nibble>)
    ensures Hex(a + b) == Hex(a) + Hex(b)
  {
  }

  /** Parsing a rendered nibble sequence gives the nibbles back. */
  lemma {:induction false} ParseHexOfHex(ns: seq<Nibble>)
    ensures ParseHex(Hex(ns)) == Some(ns)
  {
    if ns != [] {
      var s := Hex(ns);
      assert s[1..] == Hex(ns[1..]);
      ParseHexOfHex(ns[1..]);
      assert [ns[0]] + ns[1..] == ns;
    }
  }
}
