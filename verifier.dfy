/** The verifier that takes the signature's tags as a ready map (`verifier.rs`): it
    canonicalizes only under "relaxed/relaxed" and reports every failure as a verifier
    error. */
module Verifier {
  import opened Wrappers
  import opened Strings
  import opened Mail
  import opened Errors
  import Utils

  const RelaxedRelaxed: string := "relaxed/relaxed"

  /** `canonicalize_body` of this file: relaxed only for "relaxed/relaxed"; every other
      name, "relaxed/simple" included, leaves the body as it is. */
  function CanonicalBody(body: string, canonType: string): (r: string)
    ensures canonType != RelaxedRelaxed ==> r == body
    ensures canonType == RelaxedRelaxed ==> '\t' !in r && (r == [] || !IsWhitespace(r[|r| - 1]))
  {
    Utils.RelaxedBodyShape(body);
    if canonType == RelaxedRelaxed then Utils.RelaxedBody(body) else body
  }

  method CanonicalizeBody(body: string, canonType: string) returns (r: Result<string, DkimError>)
    ensures r == Ok(CanonicalBody(body, canonType))
  {
    if canonType == RelaxedRelaxed {
      var out := Utils.RelaxBody(body);
      r := Ok(out);
    } else {
      r := Ok(body);
    }
  }

  /** `canonicalize_headers` of this file: the trimmed `:`-separated names of `h`, values
      folded only under "relaxed/relaxed", and `Missing header : <name>` for the first
      name no header carries. */
  function HeaderBlock(headers: seq<Header>, hList: string, canonType: string): Result<string, DkimError>
  {
    match Utils.HeaderBlock(headers, WantedNames(hList), canonType == RelaxedRelaxed)
    case Ok(s) => Ok(s)
    case Err(name) => Err(DkimVerifier("Missing header : " + name))
  }

  method CanonicalizeHeaders(headers: seq<Header>, hList: string, canonType: string)
    returns (r: Result<string, DkimError>)
    ensures r == HeaderBlock(headers, hList, canonType)
  {
    var block := Utils.BuildHeaderBlock(headers, WantedNames(hList), canonType == RelaxedRelaxed);
    match block
    case Ok(s) => r := Ok(s);
    case Err(name) => r := Err(DkimVerifier("Missing header : " + name));
  }

  /** The foreign primitives: SHA-256 followed by base64 of a text, base64 decoding, the
      PKCS#1 PEM key parser, the conversion of bytes to a signature, and the PKCS#1 v1.5
      check of a signature over the SHA-256 of a text. Each failure carries its message. */
  datatype Primitives<!Key, !Bytes, !Sig> = Primitives(
    digestB64: string -> string,
    decodeB64: string -> Result<Bytes, string>,
    keyFromPem: string -> Result<Key, string>,
    signatureOf: Bytes -> Result<Sig, string>,
    verify: (Key, string, Sig) -> Result<(), string>)

  /** The canonicalization `c`, "simple/simple" when absent. */
  function CanonType(params: map<string, string>): string
  {
    if "c" in params then params["c"] else "simple/simple"
  }

  /** The outcome of `verify_email`, each check in the order the code makes it. */
  function Outcome<Key, Bytes, Sig>(headers: seq<Header>, body: string, pem: string,
                                    params: map<string, string>, p: Primitives<Key, Bytes, Sig>)
    : (r: Result<bool, DkimError>)
    ensures r.Ok? ==> r.value
    ensures r.Err? ==> r.error.DkimVerifier?
  {
    if "bh" !in params then Err(DkimVerifier("Missing header field 'bh'"))
    else if "b" !in params then Err(DkimVerifier("Missing header field 'b'"))
    else
      var computed := p.digestB64(CanonicalBody(body, CanonType(params)));
      if computed != params["bh"] then
        Err(DkimVerifier("Body hash mismatch, expected: " + params["bh"] + ", found " + computed))
      else if "h" !in params then Err(DkimVerifier("Missing header field 'h'"))
      else
        match HeaderBlock(headers, params["h"], CanonType(params))
        case Err(e) => Err(e)
        case Ok(block) =>
          match p.decodeB64(params["b"])
          case Err(e) => Err(DkimVerifier(e))
          case Ok(bytes) =>
            match p.keyFromPem(pem)
            case Err(e) => Err(DkimVerifier(e))
            case Ok(key) =>
              match p.signatureOf(bytes)
              case Err(e) => Err(DkimVerifier(e))
              case Ok(sig) =>
                match p.verify(key, block, sig)
                case Err(e) => Err(DkimVerifier(e))
                case Ok(_) => Ok(true)
  }

  /** `verify_email` on a parsed message. */
  method VerifyEmail<Key, Bytes, Sig>(headers: seq<Header>, body: string, publicKeyPem: string,
                                      params: map<string, string>, p: Primitives<Key, Bytes, Sig>)
    returns (r: Result<bool, DkimError>)
    ensures r == Outcome(headers, body, publicKeyPem, params, p)
  {
    if "bh" !in params {
      return Err(DkimVerifier("Missing header field 'bh'"));
    }
    var bhField := params["bh"];
    if "b" !in params {
      return Err(DkimVerifier("Missing header field 'b'"));
    }
    var bField := params["b"];
    var canonType := if "c" in params then params["c"] else "simple/simple";
    var canonBody := CanonicalizeBody(body, canonType);
    var computedBh := p.digestB64(canonBody.value);
    if computedBh != bhField {
      return Err(DkimVerifier("Body hash mismatch, expected: " + bhField + ", found " + computedBh));
    }
    if "h" !in params {
      return Err(DkimVerifier("Missing header field 'h'"));
    }
    var headersCanon := CanonicalizeHeaders(headers, params["h"], canonType);
    if headersCanon.Err? {
      return Err(headersCanon.error);
    }
    var sigBytes := p.decodeB64(bField);
    if sigBytes.Err? {
      return Err(DkimVerifier(sigBytes.error));
    }
    var pubKey := p.keyFromPem(publicKeyPem);
    if pubKey.Err? {
      return Err(DkimVerifier(pubKey.error));
    }
    var signature := p.signatureOf(sigBytes.value);
    if signature.Err? {
      return Err(DkimVerifier(signature.error));
    }
    var verified := p.verify(pubKey.value, headersCanon.value, signature.value);
    if verified.Err? {
      return Err(DkimVerifier(verified.error));
    }
    return Ok(true);
  }

  // ---------------------------------------------------------------------------

  /** A missing `bh` or `b` is reported before the body is looked at: the outcome is the
      same whatever the body, and names the missing field. */
  lemma MissingTagsBeforeBody<Key, Bytes, Sig>(headers: seq<Header>, body1: string, body2: string, pem: string,
                                               params: map<string, string>, p: Primitives<Key, Bytes, Sig>)
    requires "bh" !in params || "b" !in params
    ensures Outcome(headers, body1, pem, params, p) == Outcome(headers, body2, pem, params, p)
    ensures Outcome(headers, body1, pem, params, p)
         == Err(DkimVerifier(if "bh" !in params then "Missing header field 'bh'" else "Missing header field 'b'"))
  {
  }

  /** An absent `c` means "simple/simple". */
  lemma DefaultCanonicalization<Key, Bytes, Sig>(headers: seq<Header>, body: string, pem: string,
                                                 params: map<string, string>, p: Primitives<Key, Bytes, Sig>)
    requires "c" !in params
    ensures Outcome(headers, body, pem, params, p)
         == Outcome(headers, body, pem, params["c" := "simple/simple"], p)
  {
    var q := params["c" := "simple/simple"];
    assert CanonType(q) == CanonType(params);
    assert "bh" != "c" && "b" != "c" && "h" != "c";
    OutcomeOfSameFields(headers, body, pem, params, q, p);
  }

  /** The outcome reads the parameters only through `bh`, `b`, `h` and the
      canonicalization. */
  lemma OutcomeOfSameFields<Key, Bytes, Sig>(headers: seq<Header>, body: string, pem: string,
                                             params: map<string, string>, q: map<string, string>,
                                             p: Primitives<Key, Bytes, Sig>)
    requires CanonType(q) == CanonType(params)
    requires ("bh" in q <==> "bh" in params) && ("bh" in q ==> q["bh"] == params["bh"])
    requires ("b" in q <==> "b" in params) && ("b" in q ==> q["b"] == params["b"])
    requires ("h" in q <==> "h" in params) && ("h" in q ==> q["h"] == params["h"])
    ensures Outcome(headers, body, pem, q, p) == Outcome(headers, body, pem, params, p)
  {
  }

  /** The body hash is compared before `h` is looked up: with a mismatching hash the
      outcome is the mismatch whatever `h` holds. */
  lemma BodyHashBeforeHeaders<Key, Bytes, Sig>(headers: seq<Header>, body: string, pem: string,
                                               params: map<string, string>, p: Primitives<Key, Bytes, Sig>)
    requires "bh" in params && "b" in params
    requires p.digestB64(CanonicalBody(body, CanonType(params))) != params["bh"]
    ensures Outcome(headers, body, pem, params, p) == Outcome(headers, body, pem, params - {"h"}, p)
    ensures Outcome(headers, body, pem, params, p)
         == Err(DkimVerifier("Body hash mismatch, expected: " + params["bh"] + ", found "
                             + p.digestB64(CanonicalBody(body, CanonType(params)))))
  {
    var q := params - {"h"};
    assert "bh" in q && "b" in q && q["bh"] == params["bh"] && q["b"] == params["b"];
    assert CanonType(q) == CanonType(params);
  }

  /** A missing `h` is reported only for a body whose hash matches; otherwise the hash
      mismatch is reported. */
  lemma MissingHeaderListAfterBodyHash<Key, Bytes, Sig>(headers: seq<Header>, body: string, pem: string,
                                                        params: map<string, string>, p: Primitives<Key, Bytes, Sig>)
    requires "bh" in params && "b" in params && "h" !in params
    ensures var computed := p.digestB64(CanonicalBody(body, CanonType(params)));
      Outcome(headers, body, pem, params, p)
      == if computed == params["bh"] then Err(DkimVerifier("Missing header field 'h'"))
         else Err(DkimVerifier("Body hash mismatch, expected: " + params["bh"] + ", found " + computed))
  {
  }

  /** The header error names the missing header, never the `h` field itself. */
  lemma HeaderBlockError(headers: seq<Header>, hList: string, canonType: string)
    ensures HeaderBlock(headers, hList, canonType).Err? ==>
      HeaderBlock(headers, hList, canonType).error.msg[..17] == "Missing header : "
  {
    var inner := Utils.HeaderBlock(headers, WantedNames(hList), canonType == RelaxedRelaxed);
    if inner.Err? {
      var pre := "Missing header : ";
      assert HeaderBlock(headers, hList, canonType).error.msg == pre + inner.error;
      assert |pre| == 17;
      assert (pre + inner.error)[..|pre|] == pre;
    }
  }

  /** Acceptance: `bh`, `b` and `h` present, a matching body hash, every listed header
      present, a decodable signature, a parsable key, and a check that holds over the
      header block. */
  lemma OutcomeAccepts<Key, Bytes, Sig>(headers: seq<Header>, body: string, pem: string,
                                        params: map<string, string>, p: Primitives<Key, Bytes, Sig>)
    ensures Outcome(headers, body, pem, params, p) == Ok(true) <==>
      && "bh" in params && "b" in params && "h" in params
      && p.digestB64(CanonicalBody(body, CanonType(params))) == params["bh"]
      && HeaderBlock(headers, params["h"], CanonType(params)).Ok?
      && p.decodeB64(params["b"]).Ok?
      && p.keyFromPem(pem).Ok?
      && p.signatureOf(p.decodeB64(params["b"]).value).Ok?
      && p.verify(p.keyFromPem(pem).value, HeaderBlock(headers, params["h"], CanonType(params)).value,
                  p.signatureOf(p.decodeB64(params["b"]).value).value).Ok?
  {
  }
}
