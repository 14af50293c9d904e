/**
  Octets and the one concrete charset the model uses to turn Java strings into
  octets and back: ISO-8859-1, which maps each char below 256 to the octet of
  the same value and every other char to '?'.
*/
module Octets {

  newtype octet = x: int | 0 <= x < 256

  /** True when every char of `s` has an ISO-8859-1 octet of its own. */
  predicate Latin1Representable(s: string) {
    forall i :: 0 <= i < |s| ==> s[i] as int < 256
  }

  /** `String.getBytes(ISO_8859_1)`: unmappable chars become '?'. */
  function Latin1Encode(s: string): (b: seq<octet>)
    ensures |b| == |s|
    ensures forall i :: 0 <= i < |s| && s[i] as int < 256 ==> b[i] as int == s[i] as int
    ensures forall i :: 0 <= i < |s| && s[i] as int >= 256 ==> b[i] == '?' as int as octet
  {
    seq(|s|, i requires 0 <= i < |s| => if s[i] as int < 256 then s[i] as int as octet else '?' as int as octet)
  }

  /** `new String(b, ISO_8859_1)`: every octet is the char of the same value. */
  function Latin1Decode(b: seq<octet>): (s: string)
    ensures |s| == |b|
    ensures Latin1Representable(s)
    ensures forall i :: 0 <= i < |b| ==> s[i] as int == b[i] as int
  {
    seq(|b|, i requires 0 <= i < |b| => b[i] as int as char)
  }

  /** Decoding undoes encoding exactly on the strings ISO-8859-1 can represent, and only on them. */
  lemma Latin1RoundTrip(s: string)
    ensures Latin1Decode(Latin1Encode(s)) == s <==> Latin1Representable(s)
  {
    if !Latin1Representable(s) {
      var i :| 0 <= i < |s| && s[i] as int >= 256;
      assert Latin1Decode(Latin1Encode(s))[i] == '?';
    }
  }
}
