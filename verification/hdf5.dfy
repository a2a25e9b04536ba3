/** An abstract HDF5 file as the h5ebsd reader sees it: an ordered list of
    named links per group, each to a dataset holding a value or to a
    subgroup; plus the string operations the reader applies to names and
    values. */
module Hdf5 {

  newtype byte = x: int | 0 <= x < 256

  /** What reading a dataset (`dset[()]`) yields: a bytes object, a str, a
      number, or an ndarray whose first axis holds `items`. */
  datatype Value = Bytes(bytes: seq<byte>) | Text(text: string) | Number(x: real) | Array(items: seq<Value>)

  datatype Node = Dataset(value: Value) | Group(links: seq<Link>)

  datatype Link = Link(name: string, node: Node)

  /** Python's `str.isspace`: the characters `str.lstrip()` removes. */
  predicate IsSpace(c: char)
  {
    || c == ' '
    || ('\t' <= c <= '\r')
    || ('\U{1C}' <= c <= '\U{1F}')
    || c == '\U{85}' || c == '\U{A0}' || c == '\U{1680}'
    || ('\U{2000}' <= c <= '\U{200A}')
    || c == '\U{2028}' || c == '\U{2029}' || c == '\U{202F}' || c == '\U{205F}' || c == '\U{3000}'
  }

  predicate IsSlash(c: char)
  {
    c == '/'
  }

  /** `s.lstrip(chars)`: the longest suffix of `s` that does not start with
      a stripped character. */
  function LStrip(s: string, strip: char -> bool): (r: string)
    ensures |r| <= |s|
    ensures forall i :: 0 <= i < |s| - |r| ==> strip(s[i])
    ensures |r| > 0 ==> !strip(r[0])
  {
    if |s| > 0 && strip(s[0]) then LStrip(s[1..], strip) else s
  }

  /** What `lstrip` keeps is the tail of `s`: only a prefix is removed.
      (A lemma rather than a postcondition of `LStrip`, so that it is not
      instantiated at every stripped name.) */
  lemma {:induction false} LStripIsSuffix(s: string, strip: char -> bool)
    ensures LStrip(s, strip) == s[|s| - |LStrip(s, strip)|..]
  {
    if |s| > 0 && strip(s[0]) {
      LStripIsSuffix(s[1..], strip);
    }
  }

  function LowerChar(c: char): char
  {
    if 'A' <= c <= 'Z' then (c as int + 32) as char else c
  }

  /** `s.lower()` on ASCII letters. */
  function Lower(s: string): (r: string)
    ensures |r| == |s|
    ensures forall i :: 0 <= i < |s| ==> r[i] == LowerChar(s[i])
  {
    seq(|s|, i requires 0 <= i < |s| => LowerChar(s[i]))
  }

  /** Lower-casing twice is lower-casing once. */
  lemma LowerIdempotent(s: string)
    ensures Lower(Lower(s)) == Lower(s)
  {
    assert forall i :: 0 <= i < |s| ==> LowerChar(LowerChar(s[i])) == LowerChar(s[i]);
  }

  /** `b.decode("latin-1")`: every byte is the code point of the same number. */
  function Latin1Decode(bytes: seq<byte>): (s: string)
    ensures |s| == |bytes|
    ensures forall i :: 0 <= i < |bytes| ==> s[i] as int == bytes[i] as int
  {
    seq(|bytes|, i requires 0 <= i < |bytes| => (bytes[i] as int) as char)
  }

  /** `s.encode("latin-1")` for strings of code points below 256. */
  function Latin1Encode(s: string): (bytes: seq<byte>)
    requires forall i :: 0 <= i < |s| ==> s[i] as int < 256
    ensures |bytes| == |s|
  {
    seq(|s|, i requires 0 <= i < |s| => s[i] as int as byte)
  }

  /** Decoding is a left inverse of encoding, and encoding of decoding. */
  lemma Latin1RoundTrip(s: string, bytes: seq<byte>)
    requires forall i :: 0 <= i < |s| ==> s[i] as int < 256
    ensures Latin1Decode(Latin1Encode(s)) == s
    ensures Latin1Encode(Latin1Decode(bytes)) == bytes
  {
    var d := Latin1Decode(Latin1Encode(s));
    assert forall i :: 0 <= i < |s| ==> d[i] as int == s[i] as int;
  }
}
