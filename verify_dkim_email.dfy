/** The sign-and-verify prototype: `sign_email` builds a DKIM-Signature value over the
    canonical body and the listed headers of a message, and `verify_email` checks such a value
    against a received message. Body and header canonicalization are the ones of `Utils`,
    which this file repeats word for word. */
module VerifyDkimEmail {
  import opened Wrappers
  import opened Strings
  import opened Tags
  import opened Mail
  import Utils

  /** What the prototype takes from its crates: SHA-256 of the canonical body written in
      standard base64, base64 both ways, signature bytes both ways, and RSA PKCS#1 v1.5
      signing and checking over the SHA-256 of the header block. */
  datatype Primitives<!Priv, !Key, !Bytes, !Sig> = Primitives(
    bodyHashB64: string -> string,
    decodeB64: string -> Option<Bytes>,
    encodeB64: Bytes -> string,
    signatureOf: Bytes -> Option<Sig>,
    toBytes: Sig -> Bytes,
    sign: (Priv, string) -> Sig,
    verify: (Key, string, Sig) -> bool)

  /** The standard base64 alphabet, padding included. */
  predicate Base64Char(c: char)
  {
    'A' <= c <= 'Z' || 'a' <= c <= 'z' || '0' <= c <= '9' || c == '+' || c == '/' || c == '='
  }

  predicate Base64Text(s: string)
  {
    forall k :: 0 <= k < |s| ==> Base64Char(s[k])
  }

  // ---------------------------------------------------------------------------
  // Reading the tags of a DKIM-Signature value

  /** The tags of a DKIM-Signature value: every `;`-separated part trimmed and cut at its
      first `=`, names kept as written, a later tag overriding an earlier one. */
  function SignatureTags(dkimHeader: string): map<string, string>
  {
    ToMap(Pairs(dkimHeader))
  }

  /** The loop of `verify_email` that fills its tag map. */
  method ReadTags(dkimHeader: string) returns (m: map<string, string>)
    ensures m == SignatureTags(dkimHeader)
  {
    var parts := Split(dkimHeader, ';');
    m := map[];
    for i := 0 to |parts|
      invariant m == ToMap(PairsOf(parts[..i]))
    {
      PairsOfStep(parts, i);
      ghost var prev := PairsOf(parts[..i]);
      var kv := Trim(parts[i]);
      if '=' in kv {
        var eqPos := IndexOf(kv, '=');
        var k := kv[..eqPos];
        var v := kv[eqPos + 1..];
        assert SegmentPair(parts[i]) == Some((k, v));
        assert PairsOf(parts[..i + 1]) == prev + [(k, v)];
        ToMapSnoc(prev, (k, v));
        m := m[k := v];
      } else {
        assert SegmentPair(parts[i]) == None;
        assert PairsOf(parts[..i + 1]) == prev;
      }
    }
    assert parts[..|parts|] == parts;
  }

  /** A tag is read as the value of its last occurrence. */
  lemma SignatureTagsLastWins(dkimHeader: string, name: string)
    ensures name in SignatureTags(dkimHeader) <==> LastValue(Pairs(dkimHeader), name).Some?
    ensures name in SignatureTags(dkimHeader) ==>
      SignatureTags(dkimHeader)[name] == LastValue(Pairs(dkimHeader), name).value
  {
    ToMapLastValue(Pairs(dkimHeader), name);
  }

  // ---------------------------------------------------------------------------
  // verify_email

  /** The outcome of `verify_email` on a parsed message, each check in the order the code
      makes it. */
  function VerifyOutcome<Priv, Key, Bytes, Sig>(headers: seq<Header>, body: string, pubKey: Key,
                                                dkimHeader: string, names: seq<string>,
                                                canonType: string, p: Primitives<Priv, Key, Bytes, Sig>)
    : Result<(), string>
  {
    var tags := SignatureTags(dkimHeader);
    if "bh" !in tags then Err("Missing bh field in DKIM header")
    else if "b" !in tags then Err("Missing b field in DKIM header")
    else if p.bodyHashB64(Utils.CanonicalBody(body, canonType)) != tags["bh"] then
      Err("Body hash mismatch")
    else
      match Utils.HeaderBlock(headers, names, canonType == "relaxed")
      case Err(name) => Err("Missing header: " + name)
      case Ok(block) => SignatureCheck(block, tags["b"], pubKey, p)
  }

  /** The last stage of `verify_email`: the `b=` value decoded, turned into a signature, and
      checked over the header block. */
  function SignatureCheck<Priv, Key, Bytes, Sig>(block: string, b: string, pubKey: Key,
                                                 p: Primitives<Priv, Key, Bytes, Sig>): Result<(), string>
  {
    match p.decodeB64(b)
    case None => Err("Invalid base64 signature")
    case Some(bytes) =>
      match p.signatureOf(bytes)
      case None => Err("Invalid signature")
      case Some(sig) =>
        if p.verify(pubKey, block, sig) then Ok(()) else Err("Signature verification failed")
  }

  /** `verify_email`. */
  method VerifyEmail<Priv, Key, Bytes, Sig>(headers: seq<Header>, body: string, pubKey: Key,
                                            dkimHeader: string, names: seq<string>,
                                            canonType: string, p: Primitives<Priv, Key, Bytes, Sig>)
    returns (r: Result<(), string>)
    ensures r == VerifyOutcome(headers, body, pubKey, dkimHeader, names, canonType, p)
  {
    var tags := ReadTags(dkimHeader);
    if "bh" !in tags {
      return Err("Missing bh field in DKIM header");
    }
    if "b" !in tags {
      return Err("Missing b field in DKIM header");
    }
    var canonBody := Utils.CanonicalizeBody(body, canonType);
    if p.bodyHashB64(canonBody) != tags["bh"] {
      return Err("Body hash mismatch");
    }
    var block := Utils.CanonicalizeHeaders(headers, names, canonType);
    if block.Err? {
      return Err(block.error);
    }
    r := CheckSignature(block.value, tags["b"], pubKey, p);
  }

  /** Decoding `b=` and checking the signature, each failure with its own message. */
  method CheckSignature<Priv, Key, Bytes, Sig>(block: string, b: string, pubKey: Key,
                                               p: Primitives<Priv, Key, Bytes, Sig>)
    returns (r: Result<(), string>)
    ensures r == SignatureCheck(block, b, pubKey, p)
  {
    var bytes := p.decodeB64(b);
    if bytes.None? {
      return Err("Invalid base64 signature");
    }
    var sig := p.signatureOf(bytes.value);
    if sig.None? {
      return Err("Invalid signature");
    }
    if p.verify(pubKey, block, sig.value) {
      r := Ok(());
    } else {
      r := Err("Signature verification failed");
    }
  }

  /** Missing tags are reported before the message is looked at. */
  lemma TagsCheckedFirst<Priv, Key, Bytes, Sig>(headers: seq<Header>, body: string, pubKey: Key,
                                               dkimHeader: string, names: seq<string>,
                                               canonType: string, p: Primitives<Priv, Key, Bytes, Sig>)
    requires "bh" !in SignatureTags(dkimHeader) || "b" !in SignatureTags(dkimHeader)
    ensures VerifyOutcome(headers, body, pubKey, dkimHeader, names, canonType, p)
         == if "bh" !in SignatureTags(dkimHeader) then Err("Missing bh field in DKIM header")
            else Err("Missing b field in DKIM header")
  {
  }

  /** A body whose hash differs from the one a passing check saw fails on the body hash,
      whatever the headers. */
  lemma TamperedBodyFails<Priv, Key, Bytes, Sig>(headers: seq<Header>, headers': seq<Header>,
                                                body: string, body': string, pubKey: Key,
                                                dkimHeader: string, names: seq<string>,
                                                canonType: string, p: Primitives<Priv, Key, Bytes, Sig>)
    requires VerifyOutcome(headers, body, pubKey, dkimHeader, names, canonType, p).Ok?
    requires p.bodyHashB64(Utils.CanonicalBody(body', canonType))
          != p.bodyHashB64(Utils.CanonicalBody(body, canonType))
    ensures VerifyOutcome(headers', body', pubKey, dkimHeader, names, canonType, p)
         == Err("Body hash mismatch")
  {
  }

  /** With a signature scheme under which one signature checks for at most one text, a
      header block different from the one a passing check saw fails the signature check. */
  lemma TamperedHeadersFail<Priv, Key, Bytes, Sig>(headers: seq<Header>, headers': seq<Header>,
                                                  body: string, pubKey: Key, dkimHeader: string,
                                                  names: seq<string>, canonType: string,
                                                  p: Primitives<Priv, Key, Bytes, Sig>)
    requires forall m, m', s :: p.verify(pubKey, m, s) && p.verify(pubKey, m', s) ==> m == m'
    requires VerifyOutcome(headers, body, pubKey, dkimHeader, names, canonType, p).Ok?
    requires Utils.HeaderBlock(headers', names, canonType == "relaxed").Ok?
    requires Utils.HeaderBlock(headers', names, canonType == "relaxed")
          != Utils.HeaderBlock(headers, names, canonType == "relaxed")
    ensures VerifyOutcome(headers', body, pubKey, dkimHeader, names, canonType, p)
         == Err("Signature verification failed")
  {
    var sig := VerifiedSignature(headers, body, pubKey, dkimHeader, names, canonType, p);
    var relaxed := canonType == "relaxed";
    var block := Utils.HeaderBlock(headers, names, relaxed).value;
    var block' := Utils.HeaderBlock(headers', names, relaxed).value;
    assert block != block';
    assert !p.verify(pubKey, block', sig);
  }

  /** What a passing check has seen: both tags, a matching body hash, the header block, and
      the signature decoded from `b=` that checks over it. */
  lemma VerifiedSignature<Priv, Key, Bytes, Sig>(headers: seq<Header>, body: string, pubKey: Key,
                                                dkimHeader: string, names: seq<string>,
                                                canonType: string, p: Primitives<Priv, Key, Bytes, Sig>)
    returns (sig: Sig)
    requires VerifyOutcome(headers, body, pubKey, dkimHeader, names, canonType, p).Ok?
    ensures var tags := SignatureTags(dkimHeader);
      && "bh" in tags && "b" in tags
      && p.bodyHashB64(Utils.CanonicalBody(body, canonType)) == tags["bh"]
      && Utils.HeaderBlock(headers, names, canonType == "relaxed").Ok?
      && p.decodeB64(tags["b"]).Some?
      && p.signatureOf(p.decodeB64(tags["b"]).value) == Some(sig)
      && p.verify(pubKey, Utils.HeaderBlock(headers, names, canonType == "relaxed").value, sig)
  {
    var tags := SignatureTags(dkimHeader);
    sig := p.signatureOf(p.decodeB64(tags["b"]).value).value;
  }

  // ---------------------------------------------------------------------------
  // sign_email

  /** The DKIM-Signature value before the signature: `c=` names the canonicalization twice,
      and `b=` is left open at the end. */
  function SignaturePrefix(canonType: string, domain: string, selector: string, bodyHash: string): string
  {
    "v=1; a=rsa-sha256; c=" + canonType + "/" + canonType + "; d=" + domain + "; s=" + selector
      + "; bh=" + bodyHash + "; b="
  }

  /** The outcome of `sign_email` on a parsed message, as written: the header block is
      built from the message's own headers, not from the list that puts the DKIM-Signature
      header in front of them. */
  function SignOutcome<Priv, Key, Bytes, Sig>(headers: seq<Header>, body: string, privKey: Priv,
                                              selector: string, domain: string, names: seq<string>,
                                              canonType: string, p: Primitives<Priv, Key, Bytes, Sig>)
    : (r: Result<string, string>)
    ensures r.Ok? <==> forall k :: 0 <= k < |names| ==> FirstMatch(headers, names[k]).Some?
  {
    var prefix := SignaturePrefix(canonType, domain, selector,
                                  p.bodyHashB64(Utils.CanonicalBody(body, canonType)));
    match Utils.HeaderBlock(headers, names, canonType == "relaxed")
    case Err(name) => Err("Missing header: " + name)
    case Ok(block) => Ok(prefix + p.encodeB64(p.toBytes(p.sign(privKey, block))))
  }

  /** `sign_email`. */
  method SignEmail<Priv, Key, Bytes, Sig>(headers: seq<Header>, body: string, privKey: Priv,
                                          selector: string, domain: string, names: seq<string>,
                                          canonType: string, p: Primitives<Priv, Key, Bytes, Sig>)
    returns (r: Result<string, string>)
    ensures r == SignOutcome(headers, body, privKey, selector, domain, names, canonType, p)
  {
    var canonBody := Utils.CanonicalizeBody(body, canonType);
    var prefix := SignaturePrefix(canonType, domain, selector, p.bodyHashB64(canonBody));
    // Built and then left unused: the header block below reads the message's own headers.
    var headersForSign := [("DKIM-Signature", prefix)] + headers;
    var block := Utils.CanonicalizeHeaders(headers, names, canonType);
    if block.Err? {
      return Err(block.error);
    }
    var sig := p.sign(privKey, block.value);
    r := Ok(prefix + p.encodeB64(p.toBytes(sig)));
  }

  /** A signed value carries the body hash under `bh` and the signature under `b`, whatever
      the canonicalization, domain and selector say, as long as both are base64 text. */
  lemma SignedValueTags(canonType: string, domain: string, selector: string, bodyHash: string,
                        signature: string)
    requires Base64Text(bodyHash) && Base64Text(signature)
    ensures var tags := SignatureTags(SignaturePrefix(canonType, domain, selector, bodyHash) + signature);
      && "bh" in tags && tags["bh"] == bodyHash
      && "b" in tags && tags["b"] == signature
  {
    var head := "v=1; a=rsa-sha256; c=" + canonType + "/" + canonType + "; d=" + domain + "; s=" + selector;
    var text := SignaturePrefix(canonType, domain, selector, bodyHash) + signature;
    assert text == head + "; bh=" + bodyHash + "; b=" + signature;
    SignedValuePairs(head, text, bodyHash, signature);
    var before := PairsOf(Split(head, ';'));
    ToMapSnoc(before + [("bh", bodyHash)], ("b", signature));
    ToMapSnoc(before, ("bh", bodyHash));
  }

  /** The pairs of a signed value: those of its head, then `bh`, then `b`. */
  lemma SignedValuePairs(head: string, text: string, bodyHash: string, signature: string)
    requires Base64Text(bodyHash) && Base64Text(signature)
    requires text == head + "; bh=" + bodyHash + "; b=" + signature
    ensures Pairs(text) == PairsOf(Split(head, ';')) + [("bh", bodyHash)] + [("b", signature)]
  {
    SignedValueSplit(head, text, bodyHash, signature);
    Base64NoSeparator(bodyHash);
    Base64NoSeparator(signature);
    SegmentPairSpaced("bh", bodyHash);
    SegmentPairSpaced("b", signature);
    SpacedTags(bodyHash, signature);
    PairsOfTwo(Split(head, ';'), " bh=" + bodyHash, " b=" + signature, ("bh", bodyHash), ("b", signature));
  }

  /** The signed value splits into the parts of its head, then `bh=`, then `b=`. */
  lemma SignedValueSplit(head: string, text: string, bodyHash: string, signature: string)
    requires Base64Text(bodyHash) && Base64Text(signature)
    requires text == head + "; bh=" + bodyHash + "; b=" + signature
    ensures Split(text, ';') == Split(head, ';') + [" bh=" + bodyHash] + [" b=" + signature]
  {
    var bhPart := " bh=" + bodyHash;
    var bPart := " b=" + signature;
    SignedValueShape(head, bodyHash, signature);
    TagFree(" bh=", bodyHash);
    TagFree(" b=", signature);
    SplitAppend(head, bhPart + [';'] + bPart, ';');
    SplitAppend(bhPart, bPart, ';');
    assert Split(bhPart, ';') == [bhPart] && Split(bPart, ';') == [bPart];
  }

  /** The signed value regrouped around its two `;` separators. */
  lemma SignedValueShape(head: string, bodyHash: string, signature: string)
    ensures head + "; bh=" + bodyHash + "; b=" + signature
         == head + [';'] + ((" bh=" + bodyHash) + [';'] + (" b=" + signature))
  {
    assert "; bh=" == [';'] + " bh=";
    assert "; b=" == [';'] + " b=";
  }

  /** A tag prefix without `;` followed by base64 text holds no `;`. */
  lemma TagFree(tag: string, value: string)
    requires tag == " bh=" || tag == " b="
    requires Base64Text(value)
    ensures ';' !in tag + value
  {
    Base64NoSeparator(value);
    assert ';' !in tag;
    forall k | 0 <= k < |tag + value|
      ensures (tag + value)[k] != ';'
    {
      if k >= |tag| {
        assert (tag + value)[k] == value[k - |tag|];
      }
    }
  }

  /** Base64 text holds no `;` and does not end in white space. */
  lemma Base64NoSeparator(s: string)
    requires Base64Text(s)
    ensures ';' !in s
    ensures s == [] || !IsWhitespace(s[|s| - 1])
  {
    forall k | 0 <= k < |s|
      ensures s[k] != ';'
    {
      assert Base64Char(s[k]);
    }
    if s != [] {
      assert Base64Char(s[|s| - 1]);
    }
  }

  /** Signing and then checking the same message with the matching public key succeeds:
      base64 round-trips, signature bytes round-trip, and every signature made with the
      private key checks under the public key. */
  lemma SignThenVerify<Priv, Key, Bytes, Sig>(headers: seq<Header>, body: string, privKey: Priv,
                                              pubKey: Key, selector: string, domain: string,
                                              names: seq<string>, canonType: string,
                                              p: Primitives<Priv, Key, Bytes, Sig>)
    requires forall t :: Base64Text(p.bodyHashB64(t))
    requires forall b :: Base64Text(p.encodeB64(b))
    requires forall b :: p.decodeB64(p.encodeB64(b)) == Some(b)
    requires forall s :: p.signatureOf(p.toBytes(s)) == Some(s)
    requires forall m :: p.verify(pubKey, m, p.sign(privKey, m))
    requires forall k :: 0 <= k < |names| ==> FirstMatch(headers, names[k]).Some?
    ensures SignOutcome(headers, body, privKey, selector, domain, names, canonType, p).Ok?
    ensures VerifyOutcome(headers, body, pubKey,
                          SignOutcome(headers, body, privKey, selector, domain, names, canonType, p).value,
                          names, canonType, p) == Ok(())
  {
    var relaxed := canonType == "relaxed";
    Utils.HeaderBlockMissing(headers, names, relaxed);
    var block := Utils.HeaderBlock(headers, names, relaxed).value;
    var bodyHash := p.bodyHashB64(Utils.CanonicalBody(body, canonType));
    var sig := p.sign(privKey, block);
    var bytes := p.toBytes(sig);
    var encoded := p.encodeB64(bytes);
    Base64Output(p.bodyHashB64, Utils.CanonicalBody(body, canonType));
    Base64Output(p.encodeB64, bytes);
    SignedValueTags(canonType, domain, selector, bodyHash, encoded);
    var text := SignaturePrefix(canonType, domain, selector, bodyHash) + encoded;
    assert SignOutcome(headers, body, privKey, selector, domain, names, canonType, p) == Ok(text);
    var tags := SignatureTags(text);
    assert tags["bh"] == bodyHash && tags["b"] == encoded;
    Inverse(p.encodeB64, p.decodeB64, bytes);
    Inverse(p.toBytes, p.signatureOf, sig);
    assert p.verify(pubKey, block, sig);
  }

  /** `bh=` and `b=` after the space that follows `;`. */
  lemma SpacedTags(bodyHash: string, signature: string)
    ensures " bh=" + bodyHash == " " + "bh" + "=" + bodyHash
    ensures " b=" + signature == " " + "b" + "=" + signature
  {
  }

  lemma Inverse<A, B>(f: A -> B, g: B -> Option<A>, x: A)
    requires forall y :: g(f(y)) == Some(y)
    ensures g(f(x)) == Some(x)
  {
  }

  lemma Base64Output<T>(f: T -> string, x: T)
    requires forall y :: Base64Text(f(y))
    ensures Base64Text(f(x))
  {
  }

  // ---------------------------------------------------------------------------
  // The message of the prototype's own sign-then-verify test

  /** `From`, `To` and `Subject`, and no DKIM-Signature header. */
  function TestHeaders(): seq<Header>
  {
    [("From", "alice@example.com"), ("To", "bob@example.com"), ("Subject", "DKIM Test")]
  }

  /** The names the test signs, DKIM-Signature among them. */
  function TestNames(): seq<string>
  {
    ["from", "to", "subject", "DKIM-Signature"]
  }

  /** As written, signing the test message fails: none of its headers is named
      DKIM-Signature, so the header block reports it missing. */
  lemma SignTestMessageFails<Priv, Key, Bytes, Sig>(body: string, privKey: Priv,
                                                   p: Primitives<Priv, Key, Bytes, Sig>)
    ensures SignOutcome(TestHeaders(), body, privKey, "selector", "example.com", TestNames(), "relaxed", p)
         == Err("Missing header: " + "DKIM-Signature")
  {
    TestBlockMissing();
  }

  /** The test message's block lacks DKIM-Signature, the fourth listed name. */
  lemma TestBlockMissing()
    ensures Utils.HeaderBlock(TestHeaders(), TestNames(), true) == Err("DKIM-Signature")
  {
    var headers := TestHeaders();
    var names := TestNames();
    UnlistedDkimSignature(headers);
    ListedTestHeaders(headers);
    assert names[0] == "from" && names[1] == "to" && names[2] == "subject";
    assert names[3] == "DKIM-Signature";
    Utils.FirstMissingAt(headers, names, 3);
  }

  /** No header of the test message is named DKIM-Signature, in any case. */
  lemma UnlistedDkimSignature(headers: seq<Header>)
    requires headers == TestHeaders()
    ensures FirstMatch(headers, "DKIM-Signature").None?
  {
    forall i | 0 <= i < |headers|
      ensures !EqIgnoreCase(headers[i].0, "DKIM-Signature")
    {
      assert |Lower(headers[i].0)| < |Lower("DKIM-Signature")|;
    }
  }

  lemma ListedTestHeaders(headers: seq<Header>)
    requires headers == TestHeaders()
    ensures FirstMatch(headers, "from") == Some(0)
    ensures FirstMatch(headers, "to") == Some(1)
    ensures FirstMatch(headers, "subject") == Some(2)
  {
    assert Lower("From") == "from" == Lower("from");
    assert Lower("To") == "to" == Lower("to");
    assert !EqIgnoreCase("From", "to");
    assert Lower("Subject") == "subject" == Lower("subject");
    assert !EqIgnoreCase("From", "subject") && !EqIgnoreCase("To", "subject");
  }

  /** The header list the prototype builds for signing: the DKIM-Signature value being
      made, followed by the message's own headers. */
  function HeadersForSign(headers: seq<Header>, prefix: string): seq<Header>
  {
    [("DKIM-Signature", prefix)] + headers
  }

  /** `sign_email` as evidently intended: the header block is built from the list that puts
      the DKIM-Signature value in front of the message's headers. */
  function SignIntended<Priv, Key, Bytes, Sig>(headers: seq<Header>, body: string, privKey: Priv,
                                               selector: string, domain: string, names: seq<string>,
                                               canonType: string, p: Primitives<Priv, Key, Bytes, Sig>)
    : (r: Result<string, string>)
    ensures r.Ok? <==> forall k :: 0 <= k < |names| ==>
      EqIgnoreCase(names[k], "DKIM-Signature") || FirstMatch(headers, names[k]).Some?
  {
    var prefix := SignaturePrefix(canonType, domain, selector,
                                  p.bodyHashB64(Utils.CanonicalBody(body, canonType)));
    var signed := HeadersForSign(headers, prefix);
    assert forall k :: 0 <= k < |names| ==>
      (FirstMatch(signed, names[k]).Some? <==>
       (EqIgnoreCase(names[k], "DKIM-Signature") || FirstMatch(headers, names[k]).Some?));
    match Utils.HeaderBlock(signed, names, canonType == "relaxed")
    case Err(name) => Err("Missing header: " + name)
    case Ok(block) => Ok(prefix + p.encodeB64(p.toBytes(p.sign(privKey, block))))
  }

  /** With the intended header list the test message signs. */
  lemma IntendedSignsTestMessage<Priv, Key, Bytes, Sig>(body: string, privKey: Priv,
                                                       p: Primitives<Priv, Key, Bytes, Sig>)
    ensures SignIntended(TestHeaders(), body, privKey, "selector", "example.com", TestNames(), "relaxed", p).Ok?
  {
    TestNamesSignable();
  }

  /** Every name the test lists is DKIM-Signature or carried by a header of the message. */
  lemma TestNamesSignable()
    ensures forall k :: 0 <= k < |TestNames()| ==>
      EqIgnoreCase(TestNames()[k], "DKIM-Signature") || FirstMatch(TestHeaders(), TestNames()[k]).Some?
  {
    var headers, names := TestHeaders(), TestNames();
    ListedTestHeaders(headers);
    assert names[0] == "from" && names[1] == "to" && names[2] == "subject";
    assert EqIgnoreCase(names[3], "DKIM-Signature");
  }

  /** When DKIM-Signature is not listed, the intended signer signs exactly what the
      written one does. */
  lemma IntendedAgreesWhenUnlisted<Priv, Key, Bytes, Sig>(headers: seq<Header>, body: string,
                                                         privKey: Priv, selector: string, domain: string,
                                                         names: seq<string>, canonType: string,
                                                         p: Primitives<Priv, Key, Bytes, Sig>)
    requires forall k :: 0 <= k < |names| ==> !EqIgnoreCase(names[k], "DKIM-Signature")
    ensures SignIntended(headers, body, privKey, selector, domain, names, canonType, p)
         == SignOutcome(headers, body, privKey, selector, domain, names, canonType, p)
  {
    var relaxed := canonType == "relaxed";
    var prefix := SignaturePrefix(canonType, domain, selector,
                                  p.bodyHashB64(Utils.CanonicalBody(body, canonType)));
    var signed := HeadersForSign(headers, prefix);
    forall k | 0 <= k < |names|
      ensures Utils.LineOf(signed, relaxed)(names[k]) == Utils.LineOf(headers, relaxed)(names[k])
      ensures FirstMatch(signed, names[k]).Some? == FirstMatch(headers, names[k]).Some?
    {
      SignedHeadersAgree(headers, prefix, names[k], relaxed);
    }
    HeaderBlockAgree(signed, headers, names, relaxed);
    assert Utils.HeaderBlock(signed, names, relaxed) == Utils.HeaderBlock(headers, names, relaxed);
  }

  /** A name other than DKIM-Signature finds the same header, one place later, once the
      DKIM-Signature entry is put in front. */
  lemma SignedHeadersAgree(headers: seq<Header>, prefix: string, name: string, relaxed: bool)
    requires !EqIgnoreCase(name, "DKIM-Signature")
    ensures var signed := HeadersForSign(headers, prefix);
      && Utils.NameLine(signed, name, relaxed) == Utils.NameLine(headers, name, relaxed)
      && FirstMatch(signed, name).Some? == FirstMatch(headers, name).Some?
  {
    var signed := HeadersForSign(headers, prefix);
    assert signed[1..] == headers;
    assert !EqIgnoreCase(signed[0].0, name);
    var f := FirstMatch(headers, name);
    assert FirstMatch(signed, name) == if f.Some? then Some(f.value + 1) else None;
    if f.Some? {
      assert signed[f.value + 1] == headers[f.value];
    }
  }

  /** Two header lists that give every listed name the same line and carry the same
      listed names give the same block. */
  lemma HeaderBlockAgree(a: seq<Header>, b: seq<Header>, names: seq<string>, relaxed: bool)
    requires forall k :: 0 <= k < |names| ==>
      Utils.LineOf(a, relaxed)(names[k]) == Utils.LineOf(b, relaxed)(names[k])
    requires forall k :: 0 <= k < |names| ==> FirstMatch(a, names[k]).Some? == FirstMatch(b, names[k]).Some?
    ensures Utils.HeaderBlock(a, names, relaxed) == Utils.HeaderBlock(b, names, relaxed)
  {
    ConcatMapAgree(names, Utils.LineOf(a, relaxed), Utils.LineOf(b, relaxed));
    SameFirstMissing(a, b, names);
  }

  /** Two header lists that carry the same listed names miss the same one first. */
  lemma SameFirstMissing(a: seq<Header>, b: seq<Header>, names: seq<string>)
    requires forall k :: 0 <= k < |names| ==> FirstMatch(a, names[k]).Some? == FirstMatch(b, names[k]).Some?
    ensures Utils.FirstMissing(a, names) == Utils.FirstMissing(b, names)
  {
    Utils.FirstFailingAgree(names, Utils.Carried(a), Utils.Carried(b));
  }

  // ---------------------------------------------------------------------------
  // verify_email as evidently intended

  /** As written, checking the test message fails whatever value is presented and whatever
      the body, key and primitives: the header block is built from the message's own
      headers, which carry no DKIM-Signature, so correcting the signer alone does not make
      the test pass. */
  lemma TestVerifyFails<Priv, Key, Bytes, Sig>(body: string, pubKey: Key, dkimHeader: string,
                                              p: Primitives<Priv, Key, Bytes, Sig>)
    ensures VerifyOutcome(TestHeaders(), body, pubKey, dkimHeader, TestNames(), "relaxed", p) != Ok(())
  {
    TestBlockMissing();
  }

  /** The DKIM-Signature value as it was signed: the value with the signature `signature`
      cut from its end, when it ends with it, and unchanged otherwise. */
  function UnsignedValue(dkimHeader: string, signature: string): (r: string)
    ensures |r| <= |dkimHeader| && r == dkimHeader[..|r|]
    ensures r + signature == dkimHeader
        <==> |signature| <= |dkimHeader| && dkimHeader[|dkimHeader| - |signature|..] == signature
  {
    if |signature| <= |dkimHeader| && dkimHeader[|dkimHeader| - |signature|..] == signature then
      var r := dkimHeader[..|dkimHeader| - |signature|];
      assert r + signature == dkimHeader;
      r
    else
      assert dkimHeader[|dkimHeader|..] == [];
      dkimHeader
  }

  /** `verify_email` as evidently intended: the header block is built, as the corrected
      signer builds it, from the DKIM-Signature value with its signature cut off, put in front
      of the message's headers. Every other check is the written one. */
  function VerifyIntended<Priv, Key, Bytes, Sig>(headers: seq<Header>, body: string, pubKey: Key,
                                                 dkimHeader: string, names: seq<string>,
                                                 canonType: string, p: Primitives<Priv, Key, Bytes, Sig>)
    : Result<(), string>
  {
    var tags := SignatureTags(dkimHeader);
    if "b" !in tags then VerifyOutcome(headers, body, pubKey, dkimHeader, names, canonType, p)
    else VerifyOutcome(HeadersForSign(headers, UnsignedValue(dkimHeader, tags["b"])),
                       body, pubKey, dkimHeader, names, canonType, p)
  }

  /** A name is carried by the list built for signing exactly when it names DKIM-Signature
      or the message carries it. */
  lemma SignedListCarries(headers: seq<Header>, prefix: string, name: string)
    ensures FirstMatch(HeadersForSign(headers, prefix), name).Some?
        <==> EqIgnoreCase(name, "DKIM-Signature") || FirstMatch(headers, name).Some?
  {
    if !EqIgnoreCase(name, "DKIM-Signature") {
      SignedHeadersAgree(headers, prefix, name, false);
    }
  }

  /** The corrected signer and the corrected checker complete the round trip, under the
      same assumptions about the crates as `SignThenVerify`, whenever every listed name is
      DKIM-Signature or carried by the message. */
  lemma IntendedRoundTrip<Priv, Key, Bytes, Sig>(headers: seq<Header>, body: string, privKey: Priv,
                                                pubKey: Key, selector: string, domain: string,
                                                names: seq<string>, canonType: string,
                                                p: Primitives<Priv, Key, Bytes, Sig>)
    requires forall t :: Base64Text(p.bodyHashB64(t))
    requires forall b :: Base64Text(p.encodeB64(b))
    requires forall b :: p.decodeB64(p.encodeB64(b)) == Some(b)
    requires forall s :: p.signatureOf(p.toBytes(s)) == Some(s)
    requires forall m :: p.verify(pubKey, m, p.sign(privKey, m))
    requires forall k :: 0 <= k < |names| ==>
      EqIgnoreCase(names[k], "DKIM-Signature") || FirstMatch(headers, names[k]).Some?
    ensures SignIntended(headers, body, privKey, selector, domain, names, canonType, p).Ok?
    ensures VerifyIntended(headers, body, pubKey,
                           SignIntended(headers, body, privKey, selector, domain, names, canonType, p).value,
                           names, canonType, p) == Ok(())
  {
    var prefix := SignaturePrefix(canonType, domain, selector,
                                  p.bodyHashB64(Utils.CanonicalBody(body, canonType)));
    var signed := HeadersForSign(headers, prefix);
    SignedListCarriesAll(headers, prefix, names);
    IntendedSignsSignedList(headers, body, privKey, selector, domain, names, canonType, p);
    SignThenVerify(signed, body, privKey, pubKey, selector, domain, names, canonType, p);
    var text := SignOutcome(signed, body, privKey, selector, domain, names, canonType, p).value;
    SignatureCut(signed, body, privKey, selector, domain, names, canonType, p);
    assert VerifyIntended(headers, body, pubKey, text, names, canonType, p)
        == VerifyOutcome(signed, body, pubKey, text, names, canonType, p);
  }

  lemma SignedListCarriesAll(headers: seq<Header>, prefix: string, names: seq<string>)
    requires forall k :: 0 <= k < |names| ==>
      EqIgnoreCase(names[k], "DKIM-Signature") || FirstMatch(headers, names[k]).Some?
    ensures forall k :: 0 <= k < |names| ==> FirstMatch(HeadersForSign(headers, prefix), names[k]).Some?
  {
    forall k | 0 <= k < |names|
      ensures FirstMatch(HeadersForSign(headers, prefix), names[k]).Some?
    {
      SignedListCarries(headers, prefix, names[k]);
    }
  }

  /** The corrected signer is the written one applied to the list built for signing. */
  lemma IntendedSignsSignedList<Priv, Key, Bytes, Sig>(headers: seq<Header>, body: string, privKey: Priv,
                                                      selector: string, domain: string,
                                                      names: seq<string>, canonType: string,
                                                      p: Primitives<Priv, Key, Bytes, Sig>)
    ensures var prefix := SignaturePrefix(canonType, domain, selector,
                                          p.bodyHashB64(Utils.CanonicalBody(body, canonType)));
      SignIntended(headers, body, privKey, selector, domain, names, canonType, p)
      == SignOutcome(HeadersForSign(headers, prefix), body, privKey, selector, domain, names, canonType, p)
  {
  }

  /** Cutting the `b=` value off a value the written signer produced gives back the prefix
      it signed. */
  lemma SignatureCut<Priv, Key, Bytes, Sig>(headers: seq<Header>, body: string, privKey: Priv,
                                           selector: string, domain: string,
                                           names: seq<string>, canonType: string,
                                           p: Primitives<Priv, Key, Bytes, Sig>)
    requires forall t :: Base64Text(p.bodyHashB64(t))
    requires forall b :: Base64Text(p.encodeB64(b))
    requires SignOutcome(headers, body, privKey, selector, domain, names, canonType, p).Ok?
    ensures var text := SignOutcome(headers, body, privKey, selector, domain, names, canonType, p).value;
      && "b" in SignatureTags(text)
      && UnsignedValue(text, SignatureTags(text)["b"])
         == SignaturePrefix(canonType, domain, selector, p.bodyHashB64(Utils.CanonicalBody(body, canonType)))
  {
    var bodyHash := p.bodyHashB64(Utils.CanonicalBody(body, canonType));
    var prefix := SignaturePrefix(canonType, domain, selector, bodyHash);
    var block := Utils.HeaderBlock(headers, names, canonType == "relaxed");
    var encoded := p.encodeB64(p.toBytes(p.sign(privKey, block.value)));
    var text := prefix + encoded;
    assert SignOutcome(headers, body, privKey, selector, domain, names, canonType, p).value == text;
    Base64Output(p.bodyHashB64, Utils.CanonicalBody(body, canonType));
    Base64Output(p.encodeB64, p.toBytes(p.sign(privKey, block.value)));
    SignedValueTags(canonType, domain, selector, bodyHash, encoded);
    CutSuffix(prefix, encoded);
  }

  lemma CutSuffix(prefix: string, signature: string)
    ensures UnsignedValue(prefix + signature, signature) == prefix
  {
    var text := prefix + signature;
    assert text[|text| - |signature|..] == signature;
  }

  /** With both halves corrected, the test's sign-then-verify succeeds. */
  lemma IntendedVerifiesTestMessage<Priv, Key, Bytes, Sig>(body: string, privKey: Priv, pubKey: Key,
                                                          p: Primitives<Priv, Key, Bytes, Sig>)
    requires forall t :: Base64Text(p.bodyHashB64(t))
    requires forall b :: Base64Text(p.encodeB64(b))
    requires forall b :: p.decodeB64(p.encodeB64(b)) == Some(b)
    requires forall s :: p.signatureOf(p.toBytes(s)) == Some(s)
    requires forall m :: p.verify(pubKey, m, p.sign(privKey, m))
    ensures SignIntended(TestHeaders(), body, privKey, "selector", "example.com", TestNames(), "relaxed", p).Ok?
    ensures VerifyIntended(TestHeaders(), body, pubKey,
                           SignIntended(TestHeaders(), body, privKey, "selector", "example.com",
                                        TestNames(), "relaxed", p).value,
                           TestNames(), "relaxed", p) == Ok(())
  {
    TestNamesSignable();
    IntendedRoundTrip(TestHeaders(), body, privKey, pubKey, "selector", "example.com", TestNames(), "relaxed", p);
  }

  /** The corrected checker still rejects a body whose hash differs from the one a passing
      check saw, as the test's tampering step expects. */
  lemma IntendedTamperedBodyFails<Priv, Key, Bytes, Sig>(headers: seq<Header>, body: string, body': string,
                                                        pubKey: Key, dkimHeader: string, names: seq<string>,
                                                        canonType: string, p: Primitives<Priv, Key, Bytes, Sig>)
    requires VerifyIntended(headers, body, pubKey, dkimHeader, names, canonType, p).Ok?
    requires p.bodyHashB64(Utils.CanonicalBody(body', canonType))
          != p.bodyHashB64(Utils.CanonicalBody(body, canonType))
    ensures VerifyIntended(headers, body', pubKey, dkimHeader, names, canonType, p) == Err("Body hash mismatch")
  {
    var tags := SignatureTags(dkimHeader);
    var signed := if "b" in tags then HeadersForSign(headers, UnsignedValue(dkimHeader, tags["b"])) else headers;
    TamperedBodyFails(signed, signed, body, body', pubKey, dkimHeader, names, canonType, p);
  }
}
