/**
 * The four links the contact handlers build, each next to a reader that
 * takes the link apart the way its receiver does and decodes the
 * parameters. The round-trip lemmas show every free-text field comes back
 * unchanged, so no text can add, drop or split a parameter.
 */
module UriCompose {
  import opened Wrappers
  import opened UriEncoding
  import opened UriSyntax

  const GmailBase := "https://mail.google.com/mail/u/0/"
  /** Everything before the compose parameters; they are placed in the fragment. */
  const GmailComposePrefix := GmailBase + "#inbox?compose=new&"
  const WhatsAppPrefix := "https://wa.me/"

  /** `mailto:` URI (section 2 of RFC 6068). The address is written as given, not encoded. */
  function MailtoUri(address: string, subject: string, body: string): string {
    "mailto:" + address + "?subject=" + Encode(subject) + "&body=" + Encode(body)
  }

  /** Gmail compose link: `to`, `su` and `body` joined with `&` after the fixed prefix. */
  function GmailComposeUrl(to: string, subject: string, body: string): string {
    GmailComposePrefix + Join(["to=" + Encode(to), "su=" + Encode(subject), "body=" + Encode(body)], '&')
  }

  /**
   * `sms:` URI: the `?body=` form of section 2.2 of RFC 5724, or the
   * `&body=` form used for Apple devices.
   */
  function SmsUri(number: string, body: string, apple: bool): string {
    "sms:" + number + (if apple then "&body=" else "?body=") + Encode(body)
  }

  /** `wa.me` link. */
  function WhatsAppUri(number: string, text: string): string {
    WhatsAppPrefix + number + "?text=" + Encode(text)
  }

  /** The rest of `u` after `prefix`, if `u` starts with it. */
  function After(u: string, prefix: string): (r: Option<string>)
    ensures r.Some? <==> |prefix| <= |u| && u[..|prefix|] == prefix
    ensures r.Some? ==> u == prefix + r.value
  {
    if |prefix| <= |u| && u[..|prefix|] == prefix then Some(u[|prefix|..]) else None
  }

  /** Every value of a parameter list decoded with `decodeURIComponent`. */
  function DecodeValues(pairs: seq<(string, string)>): Option<seq<(string, string)>> {
    if pairs == [] then Some([])
    else
      var v :- Decode(pairs[0].1);
      var rest :- DecodeValues(pairs[1..]);
      Some([(pairs[0].0, v)] + rest)
  }

  /** The `key=value` parameters of an `&`-separated list, values decoded. */
  function ReadParams(q: string): Option<seq<(string, string)>> {
    DecodeValues(Params(q))
  }

  function EncodeValues(pairs: seq<(string, string)>): (r: seq<(string, string)>)
    ensures |r| == |pairs|
    ensures forall k | 0 <= k < |r| :: r[k].0 == pairs[k].0 && r[k].1 == Encode(pairs[k].1)
  {
    seq(|pairs|, i requires 0 <= i < |pairs| => (pairs[i].0, Encode(pairs[i].1)))
  }

  lemma {:induction false} DecodeEncodeValues(pairs: seq<(string, string)>)
    ensures DecodeValues(EncodeValues(pairs)) == Some(pairs)
    decreases |pairs|
  {
    if pairs != [] {
      DecodeEncode(pairs[0].1);
      assert EncodeValues(pairs)[1..] == EncodeValues(pairs[1..]);
      DecodeEncodeValues(pairs[1..]);
      assert [pairs[0]] + pairs[1..] == pairs;
    }
  }

  /** A parameter list with plain keys and encoded values reads back as the original pairs. */
  lemma ReadEncodedParams(pairs: seq<(string, string)>)
    requires |pairs| >= 1
    requires forall k | 0 <= k < |pairs| :: '&' !in pairs[k].0 && '=' !in pairs[k].0
    ensures ReadParams(Join(Pairs(EncodeValues(pairs)), '&')) == Some(pairs)
  {
    var encoded := EncodeValues(pairs);
    forall k | 0 <= k < |encoded|
      ensures '&' !in encoded[k].1
    {
      EncodedHasNoDelimiters(pairs[k].1);
    }
    ParamsOfPairs(encoded);
    DecodeEncodeValues(pairs);
  }

  /** Each written pair is its key, `=`, and its encoded value. */
  lemma WrittenPair(pairs: seq<(string, string)>, k: nat)
    requires k < |pairs|
    ensures |Pairs(EncodeValues(pairs))| == |pairs|
    ensures Pairs(EncodeValues(pairs))[k] == pairs[k].0 + "=" + Encode(pairs[k].1)
  {
  }

  /** The recipient and the decoded header fields of a `mailto:` URI. */
  function ReadMailto(u: string): Option<(string, seq<(string, string)>)> {
    var rest :- After(u, "mailto:");
    var cut :- CutAt(rest, '?');
    var fields :- ReadParams(cut.1);
    Some((cut.0, fields))
  }

  /** Two written pairs joined with `&`. */
  lemma WriteTwo(k1: string, v1: string, k2: string, v2: string)
    ensures Join(Pairs([(k1, v1), (k2, v2)]), '&') == k1 + "=" + v1 + "&" + k2 + "=" + v2
  {
    assert Pairs([(k1, v1), (k2, v2)]) == [k1 + "=" + v1, k2 + "=" + v2];
  }

  /** Regrouping the pieces of a `mailto:` template around its `?`. */
  lemma RegroupMailto(p: string, a: string, s1: string, e1: string, s2: string, e2: string,
                      q: string, k1: string, k2: string, eq: string, amp: string)
    requires s1 == q + k1 + eq && s2 == amp + k2 + eq
    ensures p + a + s1 + e1 + s2 + e2 == p + (a + q + (k1 + eq + e1 + amp + k2 + eq + e2))
  {
  }

  /** A `mailto:` URI is the address, `?`, and the written parameter list. */
  lemma MailtoShape(address: string, subject: string, body: string)
    ensures MailtoUri(address, subject, body)
      == "mailto:" + (address + ['?'] + Join(Pairs(EncodeValues([("subject", subject), ("body", body)])), '&'))
  {
    var e1, e2 := Encode(subject), Encode(body);
    assert EncodeValues([("subject", subject), ("body", body)]) == [("subject", e1), ("body", e2)];
    WriteTwo("subject", e1, "body", e2);
    assert "?subject=" == ['?'] + "subject" + "=";
    assert "&body=" == "&" + "body" + "=";
    RegroupMailto("mailto:", address, "?subject=", e1, "&body=", e2, ['?'], "subject", "body", "=", "&");
  }

  /** Reading past a prefix. */
  lemma AfterPrefix(prefix: string, x: string)
    ensures After(prefix + x, prefix) == Some(x)
  {
    assert (prefix + x)[..|prefix|] == prefix;
  }

  /** Reading a `mailto:` URI whose address has no `?`: the address, then whatever its query reads as. */
  lemma ReadMailtoParts(address: string, q: string)
    requires '?' !in address
    ensures ReadMailto("mailto:" + (address + ['?'] + q))
      == if ReadParams(q).Some? then Some((address, ReadParams(q).value)) else None
  {
    AfterPrefix("mailto:", address + ['?'] + q);
    CutAtFirst(address, '?', q);
  }

  /** The `mailto:` header names are plain keys. */
  lemma MailKeysPlain()
    ensures '&' !in "subject" && '=' !in "subject" && '&' !in "body" && '=' !in "body"
  {
  }

  lemma MailtoRoundTripPlain(address: string, subject: string, body: string)
    requires '?' !in address
    ensures ReadMailto(MailtoUri(address, subject, body)) == Some((address, [("subject", subject), ("body", body)]))
  {
    var pairs := [("subject", subject), ("body", body)];
    var q := Join(Pairs(EncodeValues(pairs)), '&');
    MailtoShape(address, subject, body);
    ReadMailtoParts(address, q);
    MailKeysPlain();
    ReadEncodedParams(pairs);
  }

  /**
   * A `mailto:` URI gives back its address, subject and body exactly when
   * the address has no `?`: the address is the one part left unencoded.
   */
  lemma MailtoRoundTrip(address: string, subject: string, body: string)
    ensures ReadMailto(MailtoUri(address, subject, body)) == Some((address, [("subject", subject), ("body", body)]))
        <==> '?' !in address
  {
    if '?' !in address {
      MailtoRoundTripPlain(address, subject, body);
    }
  }

  /** The decoded compose parameters of a Gmail link: fixed base, `inbox` view, parameters in the fragment. */
  function ReadGmailCompose(u: string): Option<seq<(string, string)>> {
    var atHash :- CutAt(u, '#');
    if atHash.0 != GmailBase then None
    else
      var atQuestion :- CutAt(atHash.1, '?');
      if atQuestion.0 != "inbox" then None
      else ReadParams(atQuestion.1)
  }

  /** The parameters `GmailComposeUrl` writes, `compose=new` first. */
  function GmailComposeParams(to: string, subject: string, body: string): seq<(string, string)> {
    [("compose", "new"), ("to", to), ("su", subject), ("body", body)]
  }

  /** The fixed prefix of a Gmail compose link, taken apart at `#` and `?`. */
  lemma GmailPrefixParts(tail: string)
    ensures GmailComposePrefix + tail == GmailBase + ['#'] + ("inbox" + ['?'] + ("compose=new" + "&" + tail))
  {
    assert GmailComposePrefix == GmailBase + ['#'] + ("inbox" + ['?'] + ("compose=new" + "&"));
  }

  /** The four Gmail compose pairs written out and joined with `&`: `compose=new`, then the three written by the page. */
  lemma WriteGmailParams(e1: string, e2: string, e3: string)
    ensures Join(Pairs([("compose", "new"), ("to", e1), ("su", e2), ("body", e3)]), '&')
      == "compose=new" + "&" + Join(["to=" + e1, "su=" + e2, "body=" + e3], '&')
  {
    var written := Pairs([("compose", "new"), ("to", e1), ("su", e2), ("body", e3)]);
    assert written[0] == "compose=new";
    assert written[1] == "to=" + e1;
    assert written[2] == "su=" + e2;
    assert written[3] == "body=" + e3;
    assert written == [written[0], written[1], written[2], written[3]];
    JoinFour(written[0], written[1], written[2], written[3], '&');
    JoinThree(written[1], written[2], written[3], '&');
  }

  /** A Gmail compose link is the base, `#inbox?`, and the written parameter list. */
  lemma GmailComposeShape(to: string, subject: string, body: string)
    ensures GmailComposeUrl(to, subject, body)
      == GmailBase + ['#'] + ("inbox" + ['?'] + Join(Pairs(EncodeValues(GmailComposeParams(to, subject, body))), '&'))
  {
    var e1, e2, e3 := Encode(to), Encode(subject), Encode(body);
    var joined := Join(["to=" + e1, "su=" + e2, "body=" + e3], '&');
    EncodeIdentityIffUnreserved("new");
    assert EncodeValues(GmailComposeParams(to, subject, body)) == [("compose", "new"), ("to", e1), ("su", e2), ("body", e3)];
    WriteGmailParams(e1, e2, e3);
    GmailPrefixParts(joined);
  }

  lemma GmailKeysPlain(to: string, subject: string, body: string)
    ensures var pairs := GmailComposeParams(to, subject, body);
      forall k | 0 <= k < |pairs| :: '&' !in pairs[k].0 && '=' !in pairs[k].0
  {
  }

  /**
   * A Gmail compose link carries `compose=new` and then the recipient,
   * subject and body, all read back unchanged from the fragment.
   */
  lemma GmailComposeRoundTrip(to: string, subject: string, body: string)
    ensures ReadGmailCompose(GmailComposeUrl(to, subject, body))
      == Some([("compose", "new"), ("to", to), ("su", subject), ("body", body)])
  {
    var pairs := GmailComposeParams(to, subject, body);
    var params := Join(Pairs(EncodeValues(pairs)), '&');
    GmailComposeShape(to, subject, body);
    CutAtFirst(GmailBase, '#', "inbox" + ['?'] + params);
    CutAtFirst("inbox", '?', params);
    GmailKeysPlain(to, subject, body);
    ReadEncodedParams(pairs);
  }

  /**
   * Everything before the first `#` of a Gmail compose link is the fixed
   * base, which has no `?`: the link has no query string, and all its
   * parameters are in the fragment.
   */
  lemma GmailParamsInFragment(to: string, subject: string, body: string)
    ensures CutAt(GmailComposeUrl(to, subject, body), '#') != None
    ensures var cut := CutAt(GmailComposeUrl(to, subject, body), '#').value;
      cut.0 == GmailBase && '?' !in cut.0
  {
    var params := Join(Pairs(EncodeValues(GmailComposeParams(to, subject, body))), '&');
    GmailComposeShape(to, subject, body);
    GmailBasePlain();
    CutAtFirst(GmailBase, '#', "inbox" + ['?'] + params);
  }

  /** The mailbox address has neither a fragment nor a query. */
  lemma GmailBasePlain()
    ensures '#' !in GmailBase && '?' !in GmailBase
  {
  }

  /**
   * The recipient, the separator after it and the decoded body of an
   * `sms:` URI. The header fields of section 2.2 of RFC 5724 start at `?`;
   * without one, the Apple form is read, with the body after the first `&`.
   */
  function ReadSms(u: string): Option<(string, char, string)> {
    var rest :- After(u, "sms:");
    match CutAt(rest, '?')
    case Some(cut) =>
      var fields :- ReadParams(cut.1);
      if |fields| == 1 && fields[0].0 == "body" then Some((cut.0, '?', fields[0].1)) else None
    case None =>
      var cut :- CutAt(rest, '&');
      var fields :- ReadParams(cut.1);
      if |fields| == 1 && fields[0].0 == "body" then Some((cut.0, '&', fields[0].1)) else None
  }

  /** The written `body` parameter: no `?` and no `&` in it. */
  lemma SmsBodyParam(body: string)
    ensures Join(Pairs(EncodeValues([("body", body)])), '&') == "body=" + Encode(body)
    ensures '?' !in "body=" + Encode(body) && '&' !in "body=" + Encode(body)
  {
    WrittenPair([("body", body)], 0);
    assert "body" + "=" == "body=";
    EncodedHasNoDelimiters(body);
  }

  /** Regrouping `p + a + s + e` when the fixed piece `s` is `l + r`. */
  lemma Regroup(p: string, a: string, s: string, e: string, l: string, r: string)
    requires s == l + r
    ensures p + a + s + e == p + (a + l + (r + e))
  {
  }

  /** An `sms:` URI is the number, the separator, and the written `body` parameter. */
  lemma SmsShape(number: string, body: string, apple: bool)
    ensures SmsUri(number, body, apple) == "sms:" + (number + [if apple then '&' else '?'] + ("body=" + Encode(body)))
  {
    var sep := if apple then '&' else '?';
    var lead := if apple then "&body=" else "?body=";
    assert lead == [sep] + "body=" by {
      if apple { assert "&body=" == ['&'] + "body="; } else { assert "?body=" == ['?'] + "body="; }
    }
    Regroup("sms:", number, lead, Encode(body), [sep], "body=");
  }

  /** The RFC 5724 form: the body is the one header field after `?`. */
  lemma SmsRoundTripStandard(number: string, body: string)
    requires '?' !in number
    ensures ReadSms(SmsUri(number, body, false)) == Some((number, '?', body))
  {
    var q := "body=" + Encode(body);
    SmsShape(number, body, false);
    SmsBodyParam(body);
    AfterPrefix("sms:", number + ['?'] + q);
    CutAtFirst(number, '?', q);
    ReadEncodedParams([("body", body)]);
  }

  /** The Apple form: no `?` anywhere, the body after the first `&`. */
  lemma SmsRoundTripApple(number: string, body: string)
    requires '?' !in number && '&' !in number
    ensures ReadSms(SmsUri(number, body, true)) == Some((number, '&', body))
  {
    var q := "body=" + Encode(body);
    var rest := number + ['&'] + q;
    SmsShape(number, body, true);
    SmsBodyParam(body);
    AfterPrefix("sms:", rest);
    assert '?' !in rest;
    assert CutAt(rest, '?') == None;
    CutAtFirst(number, '&', q);
    ReadEncodedParams([("body", body)]);
  }

  /**
   * Both forms of `sms:` URI give back the number and the body, with `&`
   * after the number exactly for Apple devices; only the other form has the
   * `?` that starts RFC 5724 header fields.
   */
  lemma SmsRoundTrip(number: string, body: string, apple: bool)
    requires '?' !in number && '&' !in number
    ensures ReadSms(SmsUri(number, body, apple)) == Some((number, if apple then '&' else '?', body))
    ensures '?' in SmsUri(number, body, apple) <==> !apple
  {
    if apple {
      SmsRoundTripApple(number, body);
    } else {
      SmsRoundTripStandard(number, body);
    }
    var rest := number + [if apple then '&' else '?'] + ("body=" + Encode(body));
    SmsShape(number, body, apple);
    SmsBodyParam(body);
    if apple {
      assert '?' !in rest;
      assert '?' !in "sms:" + rest;
    } else {
      assert ("sms:" + rest)[4 + |number|] == '?';
    }
  }

  /** The number and the decoded parameters of a `wa.me` link. */
  function ReadWhatsApp(u: string): Option<(string, seq<(string, string)>)> {
    var rest :- After(u, WhatsAppPrefix);
    var cut :- CutAt(rest, '?');
    var params :- ReadParams(cut.1);
    Some((cut.0, params))
  }

  /** A `wa.me` link gives back its number and its `text` parameter unchanged. */
  lemma WhatsAppRoundTrip(number: string, text: string)
    requires '?' !in number
    ensures ReadWhatsApp(WhatsAppUri(number, text)) == Some((number, [("text", text)]))
  {
    var q := Join(Pairs(EncodeValues([("text", text)])), '&');
    assert q == "text=" + Encode(text) by {
      WrittenPair([("text", text)], 0);
      assert "text" + "=" == "text=";
    }
    assert WhatsAppUri(number, text) == WhatsAppPrefix + (number + ['?'] + q);
    CutAtFirst(number, '?', q);
    ReadEncodedParams([("text", text)]);
  }
}
