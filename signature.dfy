/**
  The request authenticator (slash_slack/signature_verifier.py), following the
  Slack request-signing scheme: a request carries a timestamp and a signature
  header, the signature is `"v0=" + hex(HMAC-SHA256(secret, "v0:" + timestamp
  + ":" + body))`, and a request more than five minutes away from the current
  time is refused.

  HMAC-SHA256 with hex encoding is the parameter `mac` (secret, message to
  digest); the clock reading is the parameter `now`, in seconds.
 */
module Signature {
  import opened Common
  import opened PyStr

  /** The keyed digest, as lower-case hex. */
  type Mac = (string, string) -> string

  /** `SignatureVerifier`: the signing secret is fixed when the verifier is made. */
  datatype Verifier = Verifier(signingSecret: string)

  /**
    2^1024 - 2^970: the smallest integer that rounds past the largest float,
    so that `now() - int(timestamp)`, a float minus an int, raises
    OverflowError for it and for everything larger in magnitude.
   */
  const FloatOverflow: int := 0xFFFF_FFFF_FFFF_FC00_0000_0000_0000_0000_0000_0000_0000_0000_0000_0000_0000_0000_0000_0000_0000_0000_0000_0000_0000_0000_0000_0000_0000_0000_0000_0000_0000_0000_0000_0000_0000_0000_0000_0000_0000_0000_0000_0000_0000_0000_0000_0000_0000_0000_0000_0000_0000_0000_0000_0000_0000_0000_0000_0000_0000_0000_0000_0000_0000_0000

  predicate OverflowsFloat(t: int) {
    t >= FloatOverflow || t <= -FloatOverflow
  }

  /** The replay window, in seconds. */
  const MaxSkew: int := 60 * 5

  const TimestampHeader: string := "x-slack-request-timestamp"
  const SignatureHeader: string := "x-slack-signature"

  /** The base string that is signed. */
  function BaseString(timestamp: string, body: string): string {
    "v0:" + timestamp + ":" + body
  }

  /** `generate_signature`: None without a timestamp; a None body signs as the empty string. */
  function GenerateSignature(v: Verifier, mac: Mac, timestamp: Option<string>, body: Option<string>): (r: Option<string>)
    ensures r.Some? <==> timestamp.Some?
    ensures r.Some? ==> |r.value| >= 3 && r.value[..3] == "v0=" && r.value[3..] == mac(v.signingSecret, BaseString(timestamp.value, body.GetOr("")))
  {
    if timestamp.None? then None
    else Some("v0=" + mac(v.signingSecret, BaseString(timestamp.value, body.GetOr(""))))
  }

  /**
    `is_valid`: `Some(b)` is the verdict. `None` stands for an exception: the
    ValueError that `int(timestamp)` raises on a timestamp that is not an
    integer literal, the OverflowError of subtracting a timestamp too large
    for a float from the clock, or the TypeError that `hmac.compare_digest`
    raises when either signature holds a non-ASCII character.
   */
  function IsValid(v: Verifier, mac: Mac, now: real, body: Option<string>, timestamp: Option<string>,
                   signature: Option<string>): Option<bool>
  {
    if timestamp.None? || signature.None? then Some(false)
    else
      match ParseInt(timestamp.value)
      case None => None
      case Some(t) =>
        if OverflowsFloat(t) then None
        else
          var skew := now - t as real;
          if (if skew < 0.0 then -skew else skew) > MaxSkew as real then Some(false)
          else
            var calculated := GenerateSignature(v, mac, timestamp, body);
            if calculated.None? then Some(false)
            else if !IsAscii(calculated.value) || !IsAscii(signature.value) then None
            else Some(calculated.value == signature.value)
  }

  /** A header map, in the order the request gives its headers. */
  type Headers = seq<(string, string)>

  /**
    `{k.lower(): v for k, v in headers.items()}.get(name)`: the value of the
    last header whose lower-cased name is `name`.
   */
  function Lookup(headers: Headers, name: string): (r: Option<string>)
    ensures r.Some? <==> exists k :: 0 <= k < |headers| && Lower(headers[k].0) == name
    ensures r.Some? ==> exists k :: 0 <= k < |headers| && Lower(headers[k].0) == name && r.value == headers[k].1
                                    && forall j :: k < j < |headers| ==> Lower(headers[j].0) != name
  {
    if headers == [] then None
    else
      var last := headers[|headers| - 1];
      if Lower(last.0) == name then Some(last.1)
      else
        var r := Lookup(headers[..|headers| - 1], name);
        assert forall k :: 0 <= k < |headers| - 1 ==> headers[..|headers| - 1][k] == headers[k];
        r
  }

  /** A header value Python treats as true: present and non-empty. */
  predicate Truthy(h: Option<string>) {
    h.Some? && h.value != ""
  }

  /** `is_valid_request`: no headers, or a missing or empty timestamp or signature, is a refusal. */
  function IsValidRequest(v: Verifier, mac: Mac, now: real, body: Option<string>, headers: Option<Headers>): Option<bool>
  {
    if headers.None? then Some(false)
    else
      var timestamp := Lookup(headers.value, TimestampHeader);
      var signature := Lookup(headers.value, SignatureHeader);
      if !Truthy(timestamp) || !Truthy(signature) then Some(false)
      else IsValid(v, mac, now, body, timestamp, signature)
  }

  // ---------------------------------------------------------------------------
  // Properties

  function Abs(x: real): real {
    if x < 0.0 then -x else x
  }

  /** Without headers, or without a usable timestamp or signature header, the request is refused. */
  lemma MissingHeadersRefused(v: Verifier, mac: Mac, now: real, body: Option<string>, headers: Option<Headers>)
    requires headers.None? || !Truthy(Lookup(headers.value, TimestampHeader)) || !Truthy(Lookup(headers.value, SignatureHeader))
    ensures IsValidRequest(v, mac, now, body, headers) == Some(false)
  {
  }

  /** Renaming a header to another spelling of the same name, in any letter case, changes nothing. */
  lemma {:induction false} LookupCaseInsensitive(headers: Headers, k: int, name': string, name: string)
    requires 0 <= k < |headers| && Lower(name') == Lower(headers[k].0)
    ensures Lookup(headers[k := (name', headers[k].1)], name) == Lookup(headers, name)
  {
    var hs := headers[k := (name', headers[k].1)];
    var n := |headers| - 1;
    assert Lookup(hs, name) == if Lower(hs[n].0) == name then Some(hs[n].1) else Lookup(hs[..n], name);
    assert Lookup(headers, name) == if Lower(headers[n].0) == name then Some(headers[n].1) else Lookup(headers[..n], name);
    if k < n {
      assert hs[n] == headers[n];
      assert hs[..n] == headers[..n][k := (name', headers[k].1)];
      LookupCaseInsensitive(headers[..n], k, name', name);
    } else {
      assert Lower(hs[n].0) == Lower(headers[n].0) && hs[n].1 == headers[n].1;
      assert hs[..n] == headers[..n];
    }
  }

  lemma RequestCaseInsensitive(v: Verifier, mac: Mac, now: real, body: Option<string>, headers: Headers,
                               k: int, name': string)
    requires 0 <= k < |headers| && Lower(name') == Lower(headers[k].0)
    ensures IsValidRequest(v, mac, now, body, Some(headers[k := (name', headers[k].1)]))
         == IsValidRequest(v, mac, now, body, Some(headers))
  {
    LookupCaseInsensitive(headers, k, name', TimestampHeader);
    LookupCaseInsensitive(headers, k, name', SignatureHeader);
  }

  /**
    A timestamp more than 300 seconds from now is refused, whatever the
    signature, unless it is too large for a float, when the subtraction raises.
   */
  lemma StaleRefused(v: Verifier, mac: Mac, now: real, body: Option<string>, timestamp: string, signature: string)
    requires ParseInt(timestamp).Some? && Abs(now - ParseInt(timestamp).value as real) > 300.0
    ensures IsValid(v, mac, now, body, Some(timestamp), Some(signature))
         == if OverflowsFloat(ParseInt(timestamp).value) then None else Some(false)
  {
  }

  /**
    Inside the window, 300 seconds included, a request is valid exactly when
    its signature equals the generated one; a non-ASCII signature on either
    side makes the comparison raise, as does a timestamp too large for a float
    (the clock then being beyond the float range too).
   */
  lemma InWindowComparesSignature(v: Verifier, mac: Mac, now: real, body: Option<string>, timestamp: string, signature: string)
    requires ParseInt(timestamp).Some? && Abs(now - ParseInt(timestamp).value as real) <= 300.0
    ensures var expected := GenerateSignature(v, mac, Some(timestamp), body).value;
      IsValid(v, mac, now, body, Some(timestamp), Some(signature))
      == if OverflowsFloat(ParseInt(timestamp).value) then None
         else if IsAscii(signature) && IsAscii(expected) then Some(signature == expected)
         else None
  {
  }

  /** `"v0="` followed by a hex digest is ASCII. */
  lemma SignatureAscii(v: Verifier, mac: Mac, timestamp: string, body: Option<string>)
    requires IsAscii(mac(v.signingSecret, BaseString(timestamp, body.GetOr(""))))
    ensures IsAscii(GenerateSignature(v, mac, Some(timestamp), body).value)
  {
    var d := mac(v.signingSecret, BaseString(timestamp, body.GetOr("")));
    var sig := GenerateSignature(v, mac, Some(timestamp), body).value;
    assert sig == "v0=" + d;
    forall i | 0 <= i < |sig| ensures sig[i] as int < 128 {
      if i >= 3 {
        assert sig[i] == d[i - 3];
      }
    }
  }

  /**
    A request signed with the same secret, inside the window, is accepted
    through its headers; the digest, being hex, is ASCII.
   */
  lemma SignedRequestAccepted(v: Verifier, mac: Mac, now: real, body: Option<string>, t: int)
    requires Abs(now - t as real) <= 300.0 && !OverflowsFloat(t)
    requires IsAscii(mac(v.signingSecret, BaseString(IntToString(t), body.GetOr(""))))
    ensures var ts := IntToString(t);
      var sig := GenerateSignature(v, mac, Some(ts), body).value;
      IsValidRequest(v, mac, now, body, Some([(TimestampHeader, ts), (SignatureHeader, sig)])) == Some(true)
  {
    var ts := IntToString(t);
    var sig := GenerateSignature(v, mac, Some(ts), body).value;
    IntRoundTrip(t);
    TwoHeaders(ts, sig);
    assert ts != [] by { assert IsDecimal(NatToString(if t < 0 then -t else t)); }
    SignatureAscii(v, mac, ts, body);
    InWindowComparesSignature(v, mac, now, body, ts, sig);
  }

  /** The two signing headers, under their own names, are found by lookup. */
  lemma TwoHeaders(ts: string, sig: string)
    ensures Lookup([(TimestampHeader, ts), (SignatureHeader, sig)], TimestampHeader) == Some(ts)
    ensures Lookup([(TimestampHeader, ts), (SignatureHeader, sig)], SignatureHeader) == Some(sig)
  {
    var hs := [(TimestampHeader, ts), (SignatureHeader, sig)];
    HeaderNamesLower();
    assert hs[..1] == [(TimestampHeader, ts)];
    assert Lookup(hs[..1], TimestampHeader) == Some(ts);
  }

  /** The header names are spelled in lower case, and differ. */
  lemma HeaderNamesLower()
    ensures Lower(TimestampHeader) == TimestampHeader
    ensures Lower(SignatureHeader) == SignatureHeader
    ensures Lower(SignatureHeader) != TimestampHeader
  {
    assert Lower(TimestampHeader) == TimestampHeader;
    assert Lower(SignatureHeader) == SignatureHeader;
    assert |SignatureHeader| != |TimestampHeader|;
  }

  /** The base string determines the timestamp and the body, for timestamps without a colon. */
  lemma BaseStringInjective(t1: string, b1: string, t2: string, b2: string)
    requires ':' !in t1 && ':' !in t2
    requires BaseString(t1, b1) == BaseString(t2, b2)
    ensures t1 == t2 && b1 == b2
  {
    var s := BaseString(t1, b1);
    assert s[3..][..|t1|] == t1 && s[3..][|t1|] == ':';
    assert s[3..][..|t2|] == t2 && s[3..][|t2|] == ':';
    assert t1 == t2;
    assert b1 == s[3 + |t1| + 1..] == b2;
  }

  /**
    With a collision-free digest, a signature generated for one body does not
    validate a different body, or the same body under another timestamp.
   */
  lemma TamperingRefused(v: Verifier, mac: Mac, now: real, t1: int, b1: string, t2: int, b2: string)
    requires forall m1, m2 :: mac(v.signingSecret, m1) == mac(v.signingSecret, m2) ==> m1 == m2
    requires forall m :: IsAscii(mac(v.signingSecret, m))
    requires t1 != t2 || b1 != b2
    ensures var sig := GenerateSignature(v, mac, Some(IntToString(t1)), Some(b1)).value;
      IsValid(v, mac, now, Some(b2), Some(IntToString(t2)), Some(sig))
      == if OverflowsFloat(t2) then None else Some(false)
  {
    var ts1 := IntToString(t1);
    var ts2 := IntToString(t2);
    IntRoundTrip(t1);
    IntRoundTrip(t2);
    assert ts1 != ts2 || b1 != b2;
    var sig1 := GenerateSignature(v, mac, Some(ts1), Some(b1)).value;
    var sig2 := GenerateSignature(v, mac, Some(ts2), Some(b2)).value;
    SignatureAscii(v, mac, ts1, Some(b1));
    SignatureAscii(v, mac, ts2, Some(b2));
    if sig1 == sig2 {
      assert sig1[3..] == sig2[3..];
      assert ':' !in ts1 by { NoColonInDigits(ts1, t1); }
      assert ':' !in ts2 by { NoColonInDigits(ts2, t2); }
      BaseStringInjective(ts1, b1, ts2, b2);
    }
  }

  lemma NoColonInDigits(s: string, t: int)
    requires s == IntToString(t)
    ensures ':' !in s
  {
  }
}
