/**
  The "Basic" HTTP authentication scheme of section 2 of RFC 7617, as the
  client applies it to its OAuth client credentials: the user-pass is the
  client id, a colon and the client secret; it is turned into octets by the
  platform's default charset and sent base64-encoded after "Basic ".
*/
module BasicAuth {
  import opened Wrappers
  import opened Octets
  import opened JavaText
  import Base64

  /** The platform's default charset, as `String.getBytes()` applies it; it is an input of the model. */
  type Charset = string -> seq<octet>

  const Scheme: string := "Basic "

  /** The user-pass: client id, ':' and client secret, with a null reference rendered "null". */
  function UserPass(clientId: JString, clientSecret: JString): (s: string)
  {
    Str(clientId) + ":" + Str(clientSecret)
  }

  /** The value of the `Authorization` header the client sends. */
  function AuthorizationValue(charset: Charset, clientId: JString, clientSecret: JString): (v: string)
    ensures |v| >= |Scheme| && v[..|Scheme|] == Scheme
  {
    Scheme + Base64.Encode(charset(UserPass(clientId, clientSecret)))
  }

  /** The position of the first `c` in `s`, if there is one. */
  function FirstIndexOf(s: string, c: char): (r: Option<nat>)
    ensures r.Some? ==> r.value < |s| && s[r.value] == c && c !in s[..r.value]
    ensures r.None? ==> c !in s
    decreases |s|
  {
    if |s| == 0 then None
    else if s[0] == c then Some(0)
    else match FirstIndexOf(s[1..], c)
      case None => None
      case Some(i) => assert s[..i + 1] == [s[0]] + s[1..][..i]; Some(i + 1)
  }

  /** How a receiver reads a user-pass: the user-id ends at the first colon (RFC 7617 section 2). */
  function SplitUserPass(s: string): (r: Option<(string, string)>)
  {
    match FirstIndexOf(s, ':')
    case None => None
    case Some(i) => Some((s[..i], s[i + 1..]))
  }

  /** Reading the credentials back from an `Authorization` value, with `decode` turning octets into chars. */
  function Credentials(decode: seq<octet> -> string, v: string): (r: Option<(string, string)>)
  {
    if |v| < |Scheme| || v[..|Scheme|] != Scheme then None
    else match Base64.Decode(v[|Scheme|..])
      case None => None
      case Some(b) => SplitUserPass(decode(b))
  }

  /** The header value is "Basic " followed by text that decodes to exactly the octets of the user-pass. */
  lemma AuthorizationDecodes(charset: Charset, clientId: JString, clientSecret: JString)
    ensures var v := AuthorizationValue(charset, clientId, clientSecret);
            v[..|Scheme|] == Scheme && Base64.Decode(v[|Scheme|..]) == Some(charset(UserPass(clientId, clientSecret)))
  {
    var b := charset(UserPass(clientId, clientSecret));
    Base64.DecodeEncode(b);
    assert (Scheme + Base64.Encode(b))[|Scheme|..] == Base64.Encode(b);
  }

  /** Splitting `id:secret` at the first colon gives back `id` and `secret` exactly when `id` has no colon. */
  lemma {:induction false} SplitRecovers(id: string, secret: string)
    ensures SplitUserPass(id + ":" + secret) == Some((id, secret)) <==> ':' !in id
  {
    var s := id + ":" + secret;
    assert s[|id|] == ':';
    if ':' !in id {
      assert s[..|id|] == id && s[|id| + 1..] == secret;
    } else {
      var k :| 0 <= k < |id| && id[k] == ':';
      assert s[k] == ':';
    }
  }

  /** For credentials ISO-8859-1 can represent, the receiver recovers them exactly when the client id has no colon. */
  lemma Latin1RepresentableRoundTrip(id: string, secret: string)
    requires Latin1Representable(id) && Latin1Representable(secret)
    ensures Credentials(Latin1Decode, AuthorizationValue(Latin1Encode, Some(id), Some(secret))) == Some((id, secret))
            <==> ':' !in id
  {
    var userPass := UserPass(Some(id), Some(secret));
    assert userPass == id + ":" + secret;
    assert Latin1Representable(userPass) by {
      forall i | 0 <= i < |userPass| ensures userPass[i] as int < 256 {
        if i < |id| { assert userPass[i] == id[i]; }
        else if i > |id| { assert userPass[i] == secret[i - |id| - 1]; }
      }
    }
    AuthorizationDecodes(Latin1Encode, Some(id), Some(secret));
    Latin1RoundTrip(userPass);
    SplitRecovers(id, secret);
  }

  /** Every piece of a text ISO-8859-1 can represent is representable too. */
  lemma Latin1Slices(d: string, i: nat)
    requires Latin1Representable(d) && i < |d|
    ensures Latin1Representable(d[..i]) && Latin1Representable(d[i + 1..])
  {
    var tail := d[i + 1..];
    forall k | 0 <= k < |tail| ensures tail[k] as int < 256 {
      assert tail[k] == d[i + 1 + k];
    }
  }

  /** Whatever `decode` returns is all a receiver can read back: both parts are pieces of it. */
  lemma CredentialsComeFromDecoded(decode: seq<octet> -> string, v: string, id: string, secret: string)
    requires Credentials(decode, v) == Some((id, secret))
    ensures |v| >= |Scheme| && Base64.Decode(v[|Scheme|..]).Some?
    ensures exists i :: 0 <= i < |decode(Base64.Decode(v[|Scheme|..]).value)|
                        && id == decode(Base64.Decode(v[|Scheme|..]).value)[..i]
                        && secret == decode(Base64.Decode(v[|Scheme|..]).value)[i + 1..]
  {
    var d := decode(Base64.Decode(v[|Scheme|..]).value);
    var i := FirstIndexOf(d, ':').value;
    assert id == d[..i] && secret == d[i + 1..];
  }

  /**
    With ISO-8859-1 as the charset, a receiver recovers the client id and
    secret from the header exactly, and only, when the client id has no colon
    and both have an ISO-8859-1 octet for every char: any other char reaches
    the receiver as '?'.
  */
  lemma Latin1CredentialsRoundTrip(id: string, secret: string)
    ensures Credentials(Latin1Decode, AuthorizationValue(Latin1Encode, Some(id), Some(secret))) == Some((id, secret))
            <==> ':' !in id && Latin1Representable(id) && Latin1Representable(secret)
  {
    if Latin1Representable(id) && Latin1Representable(secret) {
      Latin1RepresentableRoundTrip(id, secret);
    } else {
      var v := AuthorizationValue(Latin1Encode, Some(id), Some(secret));
      if Credentials(Latin1Decode, v) == Some((id, secret)) {
        CredentialsComeFromDecoded(Latin1Decode, v, id, secret);
        var d := Latin1Decode(Base64.Decode(v[|Scheme|..]).value);
        var i :| 0 <= i < |d| && id == d[..i] && secret == d[i + 1..];
        Latin1Slices(d, i);
      }
    }
  }
}
