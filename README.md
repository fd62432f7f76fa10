# DKIM text processing and blockchain teaching state machines, in Dafny

This project models two groups of code from one repository and proves properties of the models.

**DKIM prototypes** (`dkim_verifier/src`). These are several verifiers and signers for DKIM
(RFC 6376) email signatures, written side by side:
- `verify_dkim.rs` parses the tags of a DKIM-Signature header. It canonicalizes headers and
  bodies ("simple" and "relaxed"), builds the signed-header block with the `b=` value blanked,
  and checks a message in a fixed order.
- `dkim_key_fetch.rs` parses tag=value lists, builds the DNS TXT name
  `<selector>._domainkey.<domain>`, and picks the `p=` key from the TXT answer.
- `utils.rs`, `verifier.rs` and `verify_dkim_email.rs` each have their own canonicalizers.
  `verifier.rs` and `verify_dkim_email.rs` also have a verifier, and `verify_dkim_email.rs`
  has a signer.

The model follows what each file does, not the RFC. The message arrives already parsed, as
an ordered list of (name, value) headers and a body string. SHA-256, base64, RSA and PEM
parsing are function-valued parameters. So is the DNS lookup.

**Blockchain teaching code.**
- `p3_consensus.rs`: a proof-of-work header chain with an even/odd fork rule. The block hash
  is an uninterpreted parameter.
- `p1_switches.rs`: two switch state machines.
- `proof_of_existence.rs`, `system.rs` and `balances.rs`: three pallets that update maps and
  counters in place. They are modelled as classes.

Rust's `u64` and `u128` arithmetic is written out. Where the code panics on overflow (debug
build), the model says so:
- `Verdict.Panic` in consensus validation;
- `None` when mining a child;
- a `requires` where the code panics on purpose (`system.rs`).

Modules:
- `Wrappers`, `Strings`, `Lines`: Rust string operations (`trim`, `split`, `split_once`,
  `lines`, `replace`, ASCII lower-casing), stated as functions.
- `Mail`: header lookup.
- `Tags`: tag lists.
- `Utils`, `Verifier`, `VerifyDkim`, `KeyFetch`, `VerifyDkimEmail`: one module per source file.
- `Errors`: the error type.
- `Consensus`, `Switches`, `ProofOfExistence`, `SystemPallet`, `Balances`.

Loops in the source are methods with loop invariants. Each method is proved equal to a
function, and the properties are lemmas about that function.

## Model

| member | source | states |
|---|---|---|
| Mail.FirstMatch | zk_mpc_cool_security_innovation/zk_send_fund_to_email/dkim_verifier/src/utils.rs:59 | The first header whose name equals the listed name ignoring ASCII case: none exactly when no header matches; otherwise it matches and no earlier one does (`get_first_header`). |
| Mail.LastMatch | zk_mpc_cool_security_innovation/zk_send_fund_to_email/dkim_verifier/src/verify_dkim.rs:181-184 | The last header whose name matches ignoring ASCII case: none exactly when no header matches; otherwise no later one matches (`iter().rev().find`). |
| Mail.WantedNames | zk_mpc_cool_security_innovation/zk_send_fund_to_email/dkim_verifier/src/verify_dkim.rs:178 | The names of an `h=` list are the `:`-separated pieces, each trimmed, one per piece. |
| Mail.WantedNamesShape | zk_mpc_cool_security_innovation/zk_send_fund_to_email/dkim_verifier/src/verify_dkim.rs:178 | No wanted name contains `:`, and none has white space at either end. |
| Lines.DropTrailingEmpty | zk_mpc_cool_security_innovation/zk_send_fund_to_email/dkim_verifier/src/utils.rs:28-30 | Dropping trailing empty lines leaves a prefix of the lines whose last line is not empty, and every dropped line was empty. |
| Lines.PopTrailingEmpty | zk_mpc_cool_security_innovation/zk_send_fund_to_email/dkim_verifier/src/utils.rs:28-30 | The `while ... lines.pop()` loop leaves exactly `DropTrailingEmpty` of the lines. |
| Lines.NormalizeBreaksNoCR | zk_mpc_cool_security_innovation/zk_send_fund_to_email/dkim_verifier/src/verify_dkim.rs:117-118 | After CRLF and lone CR are replaced by LF, no CR is left. |
| Lines.RustLinesOfJoin | zk_mpc_cool_security_innovation/zk_send_fund_to_email/dkim_verifier/src/utils.rs:23-24 | `str::lines` reads a CRLF join of lines that hold no LF and do not end in CR back as those lines, provided the last line is not empty (`"a\r\n".lines()` is `["a"]`, not `["a", ""]`). |
| Tags.LastValueMeaning | zk_mpc_cool_security_innovation/zk_send_fund_to_email/dkim_verifier/src/verify_dkim_email.rs:117-123 | A tag has a value exactly when some pair carries its name, and then it has the value of the last such pair. |
| Tags.ToMapLastValue | zk_mpc_cool_security_innovation/zk_send_fund_to_email/dkim_verifier/src/verify_dkim_email.rs:117-123 | The map built by inserting the pairs in order holds exactly the names that occur, each with its last value. |
| Tags.SegmentPairOfTag | zk_mpc_cool_security_innovation/zk_send_fund_to_email/dkim_verifier/src/verify_dkim_email.rs:119-121 | A segment `key=value` is read as that pair, whatever `=` signs the value holds (`split_once('=')`). |
| Utils.CollapseWhitespaceShape | zk_mpc_cool_security_innovation/zk_send_fund_to_email/dkim_verifier/src/utils.rs:9-13 | `collapse_whitespace` keeps the non-white-space characters in order, leaves no white space except single spaces, and is idempotent. |
| Utils.CanonicalizeHeaderValueShape | zk_mpc_cool_security_innovation/zk_send_fund_to_email/dkim_verifier/src/utils.rs:38-41 | The canonical value neither starts nor ends with white space, holds only single spaces, keeps the other characters of the trimmed value, and is its own canonical form. |
| Utils.RelaxBody | zk_mpc_cool_security_innovation/zk_send_fund_to_email/dkim_verifier/src/utils.rs:22-32 | The relaxed branch (lines, `trim_end`, tab to space, pop the trailing empty lines, join by CRLF) gives `RelaxedBody`. |
| Utils.BodyLinesShape | zk_mpc_cool_security_innovation/zk_send_fund_to_email/dkim_verifier/src/utils.rs:23-30 | Every relaxed line holds no tab or LF and does not end in white space, and the last line is not empty. |
| Utils.RelaxedBodyShape | zk_mpc_cool_security_innovation/zk_send_fund_to_email/dkim_verifier/src/utils.rs:15-32 | A relaxed body holds no tab and does not end in white space, so it has no final CRLF. `str::lines` reads it back as exactly its relaxed lines. |
| Utils.RelaxedBodyIdempotent | zk_mpc_cool_security_innovation/zk_send_fund_to_email/dkim_verifier/src/utils.rs:20-33 | Relaxing a relaxed body changes nothing. |
| Utils.CanonicalBody | zk_mpc_cool_security_innovation/zk_send_fund_to_email/dkim_verifier/src/utils.rs:20-36 | Any type other than "relaxed" returns the body unchanged. "relaxed" gives a body with no tab that does not end in white space. |
| Utils.CanonicalizeBody | zk_mpc_cool_security_innovation/zk_send_fund_to_email/dkim_verifier/src/utils.rs:20-36 | `canonicalize_body` returns `CanonicalBody`. The copy in `verify_dkim_email.rs:11-25` is the same code and is modelled by this member too. |
| Utils.FirstMissing | zk_mpc_cool_security_innovation/zk_send_fund_to_email/dkim_verifier/src/utils.rs:58-67 | The position of the first listed name no header carries: none exactly when every name is carried. |
| Utils.HeaderBlockMissing | zk_mpc_cool_security_innovation/zk_send_fund_to_email/dkim_verifier/src/utils.rs:58-67 | The header block fails exactly when some listed name has no header, and the failure names the first such name. |
| Utils.BuildHeaderBlock | zk_mpc_cool_security_innovation/zk_send_fund_to_email/dkim_verifier/src/utils.rs:56-70 | The `push_str` loop over the listed names gives `HeaderBlock`: one line per name in list order, or the first missing name. |
| Utils.HeaderBlockSingle | zk_mpc_cool_security_innovation/zk_send_fund_to_email/dkim_verifier/src/utils.rs:59-64 | A single carried name gives exactly its line, built from the first header of that name. |
| Utils.HeaderBlockAppend | zk_mpc_cool_security_innovation/zk_send_fund_to_email/dkim_verifier/src/utils.rs:58-68 | The block of two lists that both succeed is the concatenation of their blocks. |
| Utils.NameLineIgnoresCase | zk_mpc_cool_security_innovation/zk_send_fund_to_email/dkim_verifier/src/utils.rs:59 | Names equal up to ASCII case select the same header and give the same line. |
| Utils.FieldLineShape | zk_mpc_cool_security_innovation/zk_send_fund_to_email/dkim_verifier/src/utils.rs:60-64 | Each line starts with the lower-cased listed name and `:` with no space, and ends in CRLF. A relaxed value has no white space at its ends and no adjacent white space. |
| Utils.CanonicalizeHeaders | zk_mpc_cool_security_innovation/zk_send_fund_to_email/dkim_verifier/src/utils.rs:48-71 | Succeeds exactly when every listed name is carried, and returns their block. Otherwise it returns `Missing header: <first missing name>`. The copy in `verify_dkim_email.rs:28-59` (value trimmed and folded only under "relaxed", same error) is modelled by this member too. |
| Verifier.CanonicalBody | zk_mpc_cool_security_innovation/zk_send_fund_to_email/dkim_verifier/src/verifier.rs:78-93 | Only "relaxed/relaxed" relaxes the body (no tab, no trailing white space). Every other name, "relaxed/simple" included, returns the body unchanged. |
| Verifier.CanonicalizeBody | zk_mpc_cool_security_innovation/zk_send_fund_to_email/dkim_verifier/src/verifier.rs:78-93 | `canonicalize_body` never fails and returns `CanonicalBody`. |
| Verifier.CanonicalizeHeaders | zk_mpc_cool_security_innovation/zk_send_fund_to_email/dkim_verifier/src/verifier.rs:96-129 | Takes the trimmed `:`-separated names of `h` and gives the first-match block, folded only under "relaxed/relaxed". A missing name gives `Missing header : <name>`. |
| Verifier.Outcome | zk_mpc_cool_security_innovation/zk_send_fund_to_email/dkim_verifier/src/verifier.rs:11-75 | Success is always `Ok(true)`, and every failure is a `DkimVerifier` error. |
| Verifier.VerifyEmail | zk_mpc_cool_security_innovation/zk_send_fund_to_email/dkim_verifier/src/verifier.rs:11-75 | `verify_email` returns `Outcome`, with the checks in the code's order. |
| Verifier.MissingTagsBeforeBody | zk_mpc_cool_security_innovation/zk_send_fund_to_email/dkim_verifier/src/verifier.rs:17-22 | A missing `bh` (checked first) or `b` is reported whatever the body. |
| Verifier.DefaultCanonicalization | zk_mpc_cool_security_innovation/zk_send_fund_to_email/dkim_verifier/src/verifier.rs:23-26 | An absent `c` behaves exactly as `c=simple/simple`. |
| Verifier.BodyHashBeforeHeaders | zk_mpc_cool_security_innovation/zk_send_fund_to_email/dkim_verifier/src/verifier.rs:35-46 | A body-hash mismatch is reported with both hashes, whatever `h` holds. |
| Verifier.MissingHeaderListAfterBodyHash | zk_mpc_cool_security_innovation/zk_send_fund_to_email/dkim_verifier/src/verifier.rs:35-46 | A missing `h` is reported only when the body hash matches; otherwise the mismatch is reported. |
| Verifier.HeaderBlockError | zk_mpc_cool_security_innovation/zk_send_fund_to_email/dkim_verifier/src/verifier.rs:121-126 | A header-block failure message starts with `Missing header : `. |
| Verifier.OutcomeAccepts | zk_mpc_cool_security_innovation/zk_send_fund_to_email/dkim_verifier/src/verifier.rs:50-74 | `Ok(true)` exactly when `bh`, `b` and `h` are present and the body hash matches. Every listed header must be present, the signature must decode and convert, the key must parse, and the signature must check over the header block. |
| VerifyDkim.ParseDkimSignatureHeader | zk_mpc_cool_security_innovation/zk_send_fund_to_email/dkim_verifier/src/verify_dkim.rs:57-93 | Never fails. Each of the eight exact tag names takes the value of its last segment; other names are ignored. |
| VerifyDkim.FieldsOfParts | zk_mpc_cool_security_innovation/zk_send_fund_to_email/dkim_verifier/src/verify_dkim.rs:72-91 | The segment loop leaves the fields that the tag-value pairs of all segments give, in order, later segments overriding earlier ones. |
| VerifyDkim.SignatureTextStripsPrefix | zk_mpc_cool_security_innovation/zk_send_fund_to_email/dkim_verifier/src/verify_dkim.rs:68-71 | A leading `dkim-signature:` is removed whatever its case. |
| VerifyDkim.FieldsOfSnoc | zk_mpc_cool_security_innovation/zk_send_fund_to_email/dkim_verifier/src/verify_dkim.rs:79-89 | A later segment overrides an earlier one with the same tag name, and names other than the eight change nothing. |
| VerifyDkim.FoldBlanks | zk_mpc_cool_security_innovation/zk_send_fund_to_email/dkim_verifier/src/verify_dkim.rs:99-110 | The `prev_wsp` loop replaces each run of spaces and tabs by one space and keeps every other character. |
| VerifyDkim.CanonicalizeHeaderRelaxed | zk_mpc_cool_security_innovation/zk_send_fund_to_email/dkim_verifier/src/verify_dkim.rs:96-112 | Returns the lower-cased name, `": "`, and the value with CRLFs removed, blanks folded and both ends trimmed. |
| VerifyDkim.RelaxedValueFolded | zk_mpc_cool_security_innovation/zk_send_fund_to_email/dkim_verifier/src/verify_dkim.rs:100-111 | A relaxed value has no tab, no two adjacent blanks, and no white space at either end. |
| VerifyDkim.RelaxedValueIdempotent | zk_mpc_cool_security_innovation/zk_send_fund_to_email/dkim_verifier/src/verify_dkim.rs:96-112 | For a value without CR, relaxing twice is relaxing once. |
| VerifyDkim.RelaxedValueNoCR | zk_mpc_cool_security_innovation/zk_send_fund_to_email/dkim_verifier/src/verify_dkim.rs:100 | A value without CR keeps none after relaxation. |
| VerifyDkim.RelaxedHeaderStart | zk_mpc_cool_security_innovation/zk_send_fund_to_email/dkim_verifier/src/verify_dkim.rs:111 | The relaxed line starts with the lower-cased name and `": "`, as the test's `subject:` prefix expects. |
| VerifyDkim.RelaxedHeaderEnd | zk_mpc_cool_security_innovation/zk_send_fund_to_email/dkim_verifier/src/verify_dkim.rs:111 | The relaxed line never ends in a line break: no CRLF is appended. |
| VerifyDkim.CanonicalizeBodySimple | zk_mpc_cool_security_innovation/zk_send_fund_to_email/dkim_verifier/src/verify_dkim.rs:115-129 | `canonicalize_body_simple` returns `SimpleBody`. |
| VerifyDkim.CanonicalizeBodyRelaxed | zk_mpc_cool_security_innovation/zk_send_fund_to_email/dkim_verifier/src/verify_dkim.rs:132-158 | `canonicalize_body_relaxed` returns `RelaxedBody`. |
| VerifyDkim.PiecesOfCanonical | zk_mpc_cool_security_innovation/zk_send_fund_to_email/dkim_verifier/src/verify_dkim.rs:116-120 | Splitting CRLF-terminated lines without breaks gives those lines and one empty piece after the last CRLF. |
| VerifyDkim.SimpleBodyForm | zk_mpc_cool_security_innovation/zk_send_fund_to_email/dkim_verifier/src/verify_dkim.rs:115-129 | The simple body is its lines, without trailing empty lines, each followed by CRLF. It is `""` when nothing remains, and otherwise ends in exactly one CRLF. |
| VerifyDkim.SimpleBodyOfCanonical | zk_mpc_cool_security_innovation/zk_send_fund_to_email/dkim_verifier/src/verify_dkim.rs:115-129 | A body that is already in simple canonical form is left unchanged. |
| VerifyDkim.SimpleBodyIdempotent | zk_mpc_cool_security_innovation/zk_send_fund_to_email/dkim_verifier/src/verify_dkim.rs:115-129 | Simple canonicalization is idempotent. |
| VerifyDkim.SimpleBodyDropsTrailingEmptyLines | zk_mpc_cool_security_innovation/zk_send_fund_to_email/dkim_verifier/src/verify_dkim.rs:121-128 | A line followed by three CRLFs becomes that line and one CRLF (`"Hello\r\n\r\n\r\n"` gives `"Hello\r\n"`). |
| VerifyDkim.RelaxLineShape | zk_mpc_cool_security_innovation/zk_send_fund_to_email/dkim_verifier/src/verify_dkim.rs:135-148 | A relaxed line keeps every non-blank character and folds blanks to single spaces. It has no tab and does not end in white space. |
| VerifyDkim.RelaxLineFixed | zk_mpc_cool_security_innovation/zk_send_fund_to_email/dkim_verifier/src/verify_dkim.rs:135-148 | A line already in relaxed form is unchanged. |
| VerifyDkim.RelaxedBodyForm | zk_mpc_cool_security_innovation/zk_send_fund_to_email/dkim_verifier/src/verify_dkim.rs:132-158 | The relaxed body is its relaxed lines, without trailing empty lines, each followed by CRLF. A non-empty result ends in CRLF, as the test asserts. |
| VerifyDkim.RelaxedBodyOfRelaxed | zk_mpc_cool_security_innovation/zk_send_fund_to_email/dkim_verifier/src/verify_dkim.rs:132-158 | A body already in relaxed form is left unchanged. |
| VerifyDkim.RelaxedBodyIdempotent | zk_mpc_cool_security_innovation/zk_send_fund_to_email/dkim_verifier/src/verify_dkim.rs:132-158 | Relaxed canonicalization is idempotent. |
| VerifyDkim.BodyHashFallsBackToSimple | zk_mpc_cool_security_innovation/zk_send_fund_to_email/dkim_verifier/src/verify_dkim.rs:161-169 | Every name other than "relaxed" hashes the simple form, "simple" and unknown names alike. |
| VerifyDkim.BlankSignatureMeaning | zk_mpc_cool_security_innovation/zk_send_fund_to_email/dkim_verifier/src/verify_dkim.rs:186-191 | The DKIM-Signature value is cut right after its first `b=` in any case. The result is a prefix, and all of the value when no `b=` occurs. |
| VerifyDkim.BuildSignedHeadersString | zk_mpc_cool_security_innovation/zk_send_fund_to_email/dkim_verifier/src/verify_dkim.rs:172-202 | The loop over the trimmed `h` names gives `SignedBlock`: for each name in order, the line of the last header with that name. |
| VerifyDkim.SignedBlockSkipsUnmatched | zk_mpc_cool_security_innovation/zk_send_fund_to_email/dkim_verifier/src/verify_dkim.rs:180-200 | A listed name that no header carries contributes nothing. |
| VerifyDkim.SignedBlockRepeats | zk_mpc_cool_security_innovation/zk_send_fund_to_email/dkim_verifier/src/verify_dkim.rs:178-185 | A name listed twice contributes the same last header twice; headers are not consumed bottom-up. |
| VerifyDkim.SignedLineEnding | zk_mpc_cool_security_innovation/zk_send_fund_to_email/dkim_verifier/src/verify_dkim.rs:195-198 | Under any name but "relaxed", each line ends in CRLF. Under "relaxed", no line does. |
| VerifyDkim.VerifyDkimSignatureRsa | zk_mpc_cool_security_innovation/zk_send_fund_to_email/dkim_verifier/src/verify_dkim.rs:205-257 | `verify_dkim_signature_rsa` returns `Verdict`, with each check in the code's order. |
| VerifyDkim.VerdictMissingParts | zk_mpc_cool_security_innovation/zk_send_fund_to_email/dkim_verifier/src/verify_dkim.rs:218-227 | No DKIM-Signature header gives `NoDkimSignature`. A missing `bh`, `b` or `h` gives `BadSignatureField`. |
| VerifyDkim.CanonicalizationDefault | zk_mpc_cool_security_innovation/zk_send_fund_to_email/dkim_verifier/src/verify_dkim.rs:228-233 | An absent `c` means a "relaxed" header and a "simple" body. |
| VerifyDkim.CanonicalizationWithoutSlash | zk_mpc_cool_security_innovation/zk_send_fund_to_email/dkim_verifier/src/verify_dkim.rs:231-233 | A `c` without `/` is the header canonicalization, and the body defaults to "simple". |
| VerifyDkim.VerdictBodyHashFirst | zk_mpc_cool_security_innovation/zk_send_fund_to_email/dkim_verifier/src/verify_dkim.rs:235-238 | Complete tags with a mismatching body hash give `BodyHashMismatch` before any signature work. |
| VerifyDkim.VerdictAccepts | zk_mpc_cool_security_innovation/zk_send_fund_to_email/dkim_verifier/src/verify_dkim.rs:205-257 | Success exactly when the header and tags are present and the body hash matches. The signature must also decode, the key must parse, and the check must hold over the signed block. |
| VerifyDkim.VerdictTamperedBody | zk_mpc_cool_security_innovation/zk_send_fund_to_email/dkim_verifier/src/verify_dkim.rs:390-394 | Swapping the body of an accepted message for one whose canonical hash differs gives `BodyHashMismatch`. |
| KeyFetch.ParseTagValuePairs | zk_mpc_cool_security_innovation/zk_send_fund_to_email/dkim_verifier/src/dkim_key_fetch.rs:88-102 | The insertion loop returns `TagValueMap`: line breaks become spaces, white space is folded, and the text is split on `;`. Each part with an `=` gives a trimmed, lower-cased key and a trimmed value; later keys win. |
| KeyFetch.ParseDkimHeaderParams | zk_mpc_cool_security_innovation/zk_send_fund_to_email/dkim_verifier/src/dkim_key_fetch.rs:82-84 | `parse_dkim_header_params` is `parse_tag_value_pairs`. |
| KeyFetch.TagValueMapShape | zk_mpc_cool_security_innovation/zk_send_fund_to_email/dkim_verifier/src/dkim_key_fetch.rs:90-97 | Each key is lower case with no white space at its ends. Each value has no white space at its ends and only single spaces inside. |
| KeyFetch.TagValueMapLastWins | zk_mpc_cool_security_innovation/zk_send_fund_to_email/dkim_verifier/src/dkim_key_fetch.rs:92-101 | A key is in the map exactly when some entry has it, and it maps to the value of its last entry. |
| KeyFetch.NormalizeClean | zk_mpc_cool_security_innovation/zk_send_fund_to_email/dkim_verifier/src/dkim_key_fetch.rs:90 | Text without white space passes the normalization unchanged. |
| KeyFetch.TagValueMapSingle | zk_mpc_cool_security_innovation/zk_send_fund_to_email/dkim_verifier/src/dkim_key_fetch.rs:93-97 | A single tag `k=v` gives the one entry `k := v`, whatever `=` signs `v` holds (base64 padding survives). |
| KeyFetch.FirstSome | zk_mpc_cool_security_innovation/zk_send_fund_to_email/dkim_verifier/src/dkim_key_fetch.rs:58-70 | The first record that yields something, and what it yields: none exactly when no record yields. |
| KeyFetch.FetchDkimKey | zk_mpc_cool_security_innovation/zk_send_fund_to_email/dkim_verifier/src/dkim_key_fetch.rs:25-76 | `dkim_key_fetch`, with the lookup given as a parameter, returns `FetchOutcome`. That is: the first DKIM-Signature, then `d`, then `s`, then the query `s._domainkey.d`, then the `p` of the first TXT record that has one, or the error for each missing piece. |
| KeyFetch.FirstRecordKey | zk_mpc_cool_security_innovation/zk_send_fund_to_email/dkim_verifier/src/dkim_key_fetch.rs:58-70 | The record loop returns the `p` of the first TXT record (fragments joined) that carries one, and nothing when none does. |
| KeyFetch.ErrorsBeforeLookup | zk_mpc_cool_security_innovation/zk_send_fund_to_email/dkim_verifier/src/dkim_key_fetch.rs:31-48 | A missing DKIM-Signature header, `d` or `s` is reported whatever the resolver would answer. |
| KeyFetch.OnlyQueryNameMatters | zk_mpc_cool_security_innovation/zk_send_fund_to_email/dkim_verifier/src/dkim_key_fetch.rs:48-55 | The resolver's answer is only asked for `<selector>._domainkey.<domain>`. |
| KeyFetch.EmptyKeyReturned | zk_mpc_cool_security_innovation/zk_send_fund_to_email/dkim_verifier/src/dkim_key_fetch.rs:66-68 | A first record whose `p` is empty wins: the empty text is returned as the key, not treated as revoked. |
| VerifyDkimEmail.ReadTags | zk_mpc_cool_security_innovation/zk_send_fund_to_email/dkim_verifier/src/verify_dkim_email.rs:116-123 | The loop that fills the tag map returns `SignatureTags`: trimmed `;` parts, each cut at its first `=`, with verbatim keys and the later duplicate winning. |
| VerifyDkimEmail.SignatureTagsLastWins | zk_mpc_cool_security_innovation/zk_send_fund_to_email/dkim_verifier/src/verify_dkim_email.rs:117-123 | A tag maps to the value of its last occurrence, and only names that occur are mapped. |
| VerifyDkimEmail.VerifyEmail | zk_mpc_cool_security_innovation/zk_send_fund_to_email/dkim_verifier/src/verify_dkim_email.rs:109-155 | `verify_email` returns `VerifyOutcome`, with each message in the code's order. |
| VerifyDkimEmail.TagsCheckedFirst | zk_mpc_cool_security_innovation/zk_send_fund_to_email/dkim_verifier/src/verify_dkim_email.rs:125-128 | A missing `bh` (checked first) or `b` is reported whatever the message. |
| VerifyDkimEmail.TamperedBodyFails | zk_mpc_cool_security_innovation/zk_send_fund_to_email/dkim_verifier/src/verify_dkim_email.rs:130-138 | A body whose hash differs from one that passed fails with `Body hash mismatch`. |
| VerifyDkimEmail.TamperedHeadersFail | zk_mpc_cool_security_innovation/zk_send_fund_to_email/dkim_verifier/src/verify_dkim_email.rs:140-154 | Suppose a signature checks for at most one text. Then headers whose block differs from one that passed fail with `Signature verification failed`. |
| VerifyDkimEmail.VerifiedSignature | zk_mpc_cool_security_innovation/zk_send_fund_to_email/dkim_verifier/src/verify_dkim_email.rs:125-154 | A passing check saw both tags, a matching body hash, a header block, and a decoded signature that verifies over that block. |
| VerifyDkimEmail.SignOutcome | zk_mpc_cool_security_innovation/zk_send_fund_to_email/dkim_verifier/src/verify_dkim_email.rs:68-106 | As written, signing succeeds exactly when every listed name has a header in the message itself. |
| VerifyDkimEmail.SignEmail | zk_mpc_cool_security_innovation/zk_send_fund_to_email/dkim_verifier/src/verify_dkim_email.rs:68-106 | `sign_email` returns `SignOutcome`: the prefix `v=1; a=rsa-sha256; c=X/X; d=..; s=..; bh=..; b=`, with no `h=`, followed by the base64 signature. |
| VerifyDkimEmail.SignedValueTags | zk_mpc_cool_security_innovation/zk_send_fund_to_email/dkim_verifier/src/verify_dkim_email.rs:85-88 | The signed value carries the body hash under `bh` and the signature under `b`, whatever the domain and selector. |
| VerifyDkimEmail.SignThenVerify | zk_mpc_cool_security_innovation/zk_send_fund_to_email/dkim_verifier/src/verify_dkim_email.rs:175-186 | Sign a message, then check it with the same names and type and the matching key. If the base64 and signature conversions round-trip, it verifies. |
| VerifyDkimEmail.SignTestMessageFails | zk_mpc_cool_security_innovation/zk_send_fund_to_email/dkim_verifier/src/verify_dkim_email.rs:172-183 | As written, signing the test message fails with `Missing header: DKIM-Signature`. |
| VerifyDkimEmail.SignIntended | zk_mpc_cool_security_innovation/zk_send_fund_to_email/dkim_verifier/src/verify_dkim_email.rs:90-97 | The intended signer builds the header block from the list headed by the DKIM-Signature prefix. It succeeds exactly when each listed name is DKIM-Signature or has a header. |
| VerifyDkimEmail.IntendedSignsTestMessage | zk_mpc_cool_security_innovation/zk_send_fund_to_email/dkim_verifier/src/verify_dkim_email.rs:172-183 | The intended signer signs the test message. |
| VerifyDkimEmail.IntendedAgreesWhenUnlisted | zk_mpc_cool_security_innovation/zk_send_fund_to_email/dkim_verifier/src/verify_dkim_email.rs:91-97 | When DKIM-Signature is not listed, the intended signer has the same outcome as the written one. |
| VerifyDkimEmail.TestVerifyFails | zk_mpc_cool_security_innovation/zk_send_fund_to_email/dkim_verifier/src/verify_dkim_email.rs:140-141 | As written, `verify_email` on the test message fails for every DKIM-Signature value, body, key and crate behaviour. Its header block is built from the message, which carries no DKIM-Signature header. |
| VerifyDkimEmail.UnsignedValue | zk_mpc_cool_security_innovation/zk_send_fund_to_email/dkim_verifier/src/verify_dkim_email.rs:141 | The signed part of a DKIM-Signature value: the value without the given signature at its end. Appending the signature gives the value back exactly when the value ends with it. |
| VerifyDkimEmail.IntendedRoundTrip | zk_mpc_cool_security_innovation/zk_send_fund_to_email/dkim_verifier/src/verify_dkim_email.rs:140-154 | The corrected signer succeeds exactly when each listed name is DKIM-Signature or carried, and the corrected checker accepts its output for the same message. This assumes base64 and signature bytes round-trip and that a signature made with the private key checks with the public key. |
| VerifyDkimEmail.IntendedVerifiesTestMessage | zk_mpc_cool_security_innovation/zk_send_fund_to_email/dkim_verifier/src/verify_dkim_email.rs:165-186 | With both the signer and the checker corrected, the test's sign-then-verify of its message succeeds, under the same assumptions about the crates. |
| VerifyDkimEmail.IntendedTamperedBodyFails | zk_mpc_cool_security_innovation/zk_send_fund_to_email/dkim_verifier/src/verify_dkim_email.rs:188-199 | The corrected checker still reports "Body hash mismatch" for a body whose hash differs from the one a passing check saw. |
| Consensus.Genesis | joshomdorff-blockchain-from-scratch/src/c2_blockchain/p3_consensus.rs:48-50 | Genesis is the all-zero header. |
| Consensus.Child | joshomdorff-blockchain-from-scratch/src/c2_blockchain/p3_consensus.rs:53-75 | The mining loop tries digests 0, 1, 2, ... and returns `ChildOf`: the first candidate whose hash is below `THRESHOLD`. It is `None` where the code panics. |
| Consensus.MineMeaning | joshomdorff-blockchain-from-scratch/src/c2_blockchain/p3_consensus.rs:55-74 | Mining finds the first digest whose candidate hashes below the threshold, and finds none only when no digest works. |
| Consensus.ChildLinks | joshomdorff-blockchain-from-scratch/src/c2_blockchain/p3_consensus.rs:53-65 | A child has the parent's hash, height plus one, the extrinsic, the parent's state plus the extrinsic, and a hash below the threshold. |
| Consensus.VerifySubChainBasedOnState | joshomdorff-blockchain-from-scratch/src/c2_blockchain/p3_consensus.rs:105-139 | The cursor loop returns `Check` with the digest-based work test. It is `Panic` where `height - 1` underflows or `extrinsic + state` overflows. |
| Consensus.VerifySubChain | joshomdorff-blockchain-from-scratch/src/c2_blockchain/p3_consensus.rs:81-83 | `verify_sub_chain` is the check under the unspecified rule. |
| Consensus.VerifySubChainEven | joshomdorff-blockchain-from-scratch/src/c2_blockchain/p3_consensus.rs:93-95 | `verify_sub_chain_even` is the check under the even rule. |
| Consensus.VerifySubChainOdd | joshomdorff-blockchain-from-scratch/src/c2_blockchain/p3_consensus.rs:99-101 | `verify_sub_chain_odd` is the check under the odd rule. |
| Consensus.CheckValidIff | joshomdorff-blockchain-from-scratch/src/c2_blockchain/p3_consensus.rs:110-138 | A chain is valid exactly when every header passes the four checks and the parity rule against the header before it, without overflow. The empty chain is valid. |
| Consensus.PrefixOfValid | joshomdorff-blockchain-from-scratch/src/c2_blockchain/p3_consensus.rs:111-135 | Every prefix of a valid chain is valid. |
| Consensus.PartisanImpliesUnspecified | joshomdorff-blockchain-from-scratch/src/c2_blockchain/p3_consensus.rs:121-131 | A chain valid under the even or odd rule is valid under the unspecified rule. |
| Consensus.RulesAgreeBeforeFork | joshomdorff-blockchain-from-scratch/src/c2_blockchain/p3_consensus.rs:121 | Up to `FORK_HEIGHT` the parity rule makes no difference. |
| Consensus.ForkIsContentious | joshomdorff-blockchain-from-scratch/src/c2_blockchain/p3_consensus.rs:121-131 | No chain reaching above `FORK_HEIGHT` is valid for both the even and the odd side. |
| Consensus.ValidHeights | joshomdorff-blockchain-from-scratch/src/c2_blockchain/p3_consensus.rs:113 | Heights along a valid chain count up by one from the starting header. |
| Consensus.DigestCheckIgnoresHash | joshomdorff-blockchain-from-scratch/src/c2_blockchain/p3_consensus.rs:291-300 | As written, the test's header with digest 10 is accepted whatever its hash. The documented hash check rejects it whenever its hash is not below the threshold. |
| Consensus.HashCheckedChainHasWork | joshomdorff-blockchain-from-scratch/src/c2_blockchain/p3_consensus.rs:77-80 | Under the documented check, every header of a valid chain has a hash below the threshold. |
| Consensus.MinedChildVerifies | joshomdorff-blockchain-from-scratch/src/c2_blockchain/p3_consensus.rs:240-261 | Under the documented check, a mined child is a valid one-header chain. |
| Switches.LightNext | joshomdorff-blockchain-from-scratch/src/c1_state_machine/p1_switches.rs:17-19 | Toggling changes the switch. |
| Switches.WeirdNext | joshomdorff-blockchain-from-scratch/src/c1_state_machine/p1_switches.rs:44-74 | The first switch flips the first bulb and forces the second off when the first goes off; otherwise the second is kept. The second switch flips only the second bulb. |
| Switches.LightTwice | joshomdorff-blockchain-from-scratch/src/c1_state_machine/p1_switches.rs:77-85 | Toggling twice restores the light switch. |
| Switches.SecondTwice | joshomdorff-blockchain-from-scratch/src/c1_state_machine/p1_switches.rs:65-72 | The second switch twice is the identity. |
| Switches.FirstTwice | joshomdorff-blockchain-from-scratch/src/c1_state_machine/p1_switches.rs:53-64 | The first switch twice restores the first bulb and leaves the second off. |
| Switches.FirstOffKeepsSecond | joshomdorff-blockchain-from-scratch/src/c1_state_machine/p1_switches.rs:53-63 | Turning the first bulb on leaves the second as it was. |
| ProofOfExistence.Pallet.constructor | web3dev_blockchain_from_scratch/src/proof_of_existence.rs:38-42 | A new pallet has no claims. |
| ProofOfExistence.Pallet.GetClaim | web3dev_blockchain_from_scratch/src/proof_of_existence.rs:44-46 | Returns the owner exactly when the content is claimed. |
| ProofOfExistence.Pallet.CreateClaim | web3dev_blockchain_from_scratch/src/proof_of_existence.rs:49-58 | Applies `Created` to the claims. On error the claims are unchanged and the error is returned. |
| ProofOfExistence.Pallet.RevokeClaim | web3dev_blockchain_from_scratch/src/proof_of_existence.rs:61-73 | Applies `Revoked` to the claims. On error the claims are unchanged and the error is returned. |
| ProofOfExistence.Pallet.Dispatch | web3dev_blockchain_from_scratch/src/proof_of_existence.rs:28-33 | Routes `CreateClaim` to create and `RevokeClaim` to revoke, with the same caller. |
| ProofOfExistence.CreateMeaning | web3dev_blockchain_from_scratch/src/proof_of_existence.rs:49-58 | Creating fails with `Claim already exists` exactly when the content is claimed. Otherwise it records the caller and touches no other claim. |
| ProofOfExistence.RevokeMeaning | web3dev_blockchain_from_scratch/src/proof_of_existence.rs:61-73 | Revoking succeeds exactly for the owner and removes only that claim. Otherwise the error is `Claim does not exist` or `Caller is not the owner of the claim`. |
| ProofOfExistence.CreateThenRevoke | web3dev_blockchain_from_scratch/src/proof_of_existence.rs:49-73 | Revoking a claim just created by the same caller restores the claims. |
| ProofOfExistence.ClaimScenario | web3dev_blockchain_from_scratch/src/proof_of_existence.rs:92-109 | The prototype's test run: alice claims; bob can neither revoke nor re-claim; revoking a missing claim fails; alice's revocation leaves nothing. |
| SystemPallet.Pallet.constructor | web3dev_blockchain_from_scratch/src/system.rs:19-24 | A new pallet has block number 0 and no nonces. |
| SystemPallet.Pallet.BlockNumber | web3dev_blockchain_from_scratch/src/system.rs:26-28 | `block_number` is the stored block number, which stays within its type. |
| SystemPallet.Pallet.IncBlockNumber | web3dev_blockchain_from_scratch/src/system.rs:30-36 | Adds exactly one to the block number and leaves the nonces. The caller keeps it below the maximum, since the code panics on overflow. |
| SystemPallet.Pallet.GetNonce | web3dev_blockchain_from_scratch/src/system.rs:38-43 | An unseen account has nonce 0 and a seen one its recorded nonce, which stays within the nonce type's maximum. |
| SystemPallet.Pallet.IncNonce | web3dev_blockchain_from_scratch/src/system.rs:44-54 | Adds one to that account's nonce only and keeps the counters valid. The caller keeps it below the maximum. |
| SystemPallet.BumpedCounts | web3dev_blockchain_from_scratch/src/system.rs:44-54 | One more transaction adds one to that account's nonce and leaves every other account's. |
| SystemPallet.RepeatedBumps | web3dev_blockchain_from_scratch/src/system.rs:93-103 | From no nonces, `k` transactions of one account leave its nonce at `k`; the test's two give 2. |
| Balances.Pallet.constructor | web3dev_blockchain_from_scratch/src/balances.rs:9-13 | A new pallet has no balances. |
| Balances.Pallet.SetBalance | web3dev_blockchain_from_scratch/src/balances.rs:16-19 | Overwrites that account's entry only. |
| Balances.Pallet.Balance | web3dev_blockchain_from_scratch/src/balances.rs:22-24 | `balance` is the recorded balance, or 0 for an account that was never set. |
| Balances.Pallet.Transfer | web3dev_blockchain_from_scratch/src/balances.rs:26-43 | Applies `Transferred` to the balances. On error the balances are unchanged and the error is returned. |
| Balances.SetBalanceOnly | web3dev_blockchain_from_scratch/src/balances.rs:16-19 | After setting, that account has the amount and every other account keeps its balance. |
| Balances.TransferErrors | web3dev_blockchain_from_scratch/src/balances.rs:31-37 | A transfer fails exactly when the caller cannot pay or the recipient would overflow `u128`. The shortfall is reported first. |
| Balances.TransferConserves | web3dev_blockchain_from_scratch/src/balances.rs:39-42 | Between two accounts, the amount moves from caller to recipient, their sum is kept, and every other account is untouched. |
| Balances.SelfTransferMints | web3dev_blockchain_from_scratch/src/balances.rs:28-40 | As written, a transfer to oneself adds the amount to that balance. |
| Balances.TransferScenario | web3dev_blockchain_from_scratch/src/main.rs:98-152 | The tests: bob 100 sends alice 50 for 50 and 100; 110 is insufficient; alice at `u128::MAX` cannot receive. |
| Balances.IntendedConserves | web3dev_blockchain_from_scratch/src/balances.rs:28-40 | The intended transfer keeps the pair's total, and a transfer to oneself changes nothing. |
| Balances.IntendedAgreesBetweenTwo | web3dev_blockchain_from_scratch/src/balances.rs:28-40 | Between two different accounts, the intended transfer equals the written one. |

## Left out

- SHA-256, base64, RSA PKCS#1 v1.5 signing and verification, RSA key generation, PEM/DER key
  parsing: foreign crates. They are function-valued parameters, and the verifiers' SHA-256 of
  the header block is folded into the `verify`/`sign` parameter.
- Mail parsing (`parse_mail`, `get_headers`, `get_body`, `get_first_header`) and the
  `extract_body` wrappers: a foreign crate. The model takes the parsed header list and body as
  inputs, so a parse failure path does not arise.
- The DNS resolver and its configuration in `dkim_key_fetch`: network I/O. The TXT answer is
  the result of a `lookup` parameter, each record a sequence of fragments. The UTF-8 lossy
  decoding of fragments is not modelled; fragments are given as text.
- The regex engine and its lazy static: `\s+` replaced by one space is stated directly as
  folding runs of white space.
- Unicode: white space is the ASCII part of Rust's `char::is_whitespace` (space, tab, LF, VT,
  FF, CR), and lower-casing and case-insensitive comparison are ASCII only.
- The unused `_dkim_index` argument of `build_signed_headers_string` and the unused
  `get_b` accessor.
- `sign_dkim_headers_rsa` in `verify_dkim.rs`: a test-only signer. Its body hash and
  signed-header block are the modelled functions.
- `errors.rs` and the `ToDkimError` helpers: they only wrap messages. Errors are a datatype
  carrying the message text.
- `build_contentious_forked_chain` and the fork tests that depend on concrete hash values:
  the hash is uninterpreted.
- The `StateMachine` trait of `p1_switches.rs`: each machine's `next_state` is a function.
- The `BlockNumber` and `Nonce` types of `system.rs`: their maxima are constructor
  parameters (`u32::MAX` in the tests).
- `main.rs` of both blockchain crates (runtime wiring and printing), and the stub
  `systems.rs`. Its tests appear only as `Balances.TransferScenario`.
- Consensus.Child: a panic of `consensus_digest += 1` past `u64::MAX`, or an overflowing
  height or state, is the outcome `None` rather than a panic.
- Consensus.VerifySubChainBasedOnState: debug-build semantics. An underflowing
  `height - 1` or overflowing `extrinsic + state` is `Panic`; release-build wrap-around is not
  modelled.
- SystemPallet.Pallet.IncBlockNumber: the overflow panic of `checked_add(1).unwrap()` is a
  precondition (the number is below the maximum) rather than a modelled panic.
- SystemPallet.Pallet.IncNonce: the overflow panic is likewise a precondition.
- VerifyDkimEmail.TamperedHeadersFail: holds only for a signature scheme under which one
  signature checks for at most one text. This is an assumption about RSA, stated as a
  precondition.
- VerifyDkimEmail.SignThenVerify: assumes that base64 decoding undoes encoding, that the
  signature bytes convert back, and that a signature made with the private key checks with
  the public key. These are properties of the foreign crates, stated as preconditions.

## Findings

| source | as written | input that shows it | evidently intended | confidence | as-written member | corrected member |
|---|---|---|---|---|---|---|
| zk_mpc_cool_security_innovation/zk_send_fund_to_email/dkim_verifier/src/verify_dkim_email.rs:97 | `sign_email` builds `headers_for_sign` (the DKIM-Signature prefix followed by the message's headers) at lines 91-95. It then canonicalizes the headers of `raw_email` instead, so a listed `DKIM-Signature` is never found. `verify_email` has the same defect at line 141. The test therefore still fails when only the signer is corrected, because the message carries no DKIM-Signature header (`TestVerifyFails`). | The module's test message (From, To, Subject) signed with `["from", "to", "subject", "DKIM-Signature"]` under "relaxed" gives `Err("Missing header: DKIM-Signature")`, and the test's `unwrap` panics. | The block is built from `headers_for_sign`, so a listed DKIM-Signature is taken from the prefix being signed. The checker builds its block the same way, from the received value with the signature cut off. | high; not executed | VerifyDkimEmail.SignTestMessageFails | VerifyDkimEmail.SignIntended |
| zk_mpc_cool_security_innovation/zk_send_fund_to_email/dkim_verifier/src/verify_dkim_email.rs:141 | `verify_email` also builds the header block from the received message's own headers. A listed DKIM-Signature can therefore only be found if the message itself carries one. The value under check, with `b=` emptied, is never put in front. | Checking the test message with `["from", "to", "subject", "DKIM-Signature"]` under "relaxed" gives `Err("Missing header: DKIM-Signature")` whatever value is presented, so the test's `assert!(... .is_ok())` fails. | The block is built from the DKIM-Signature value with its signature cut off, put in front of the message's headers, as the corrected signer does. The two corrected halves then complete the round trip. | high; not executed | VerifyDkimEmail.TestVerifyFails | VerifyDkimEmail.IntendedRoundTrip |
| joshomdorff-blockchain-from-scratch/src/c2_blockchain/p3_consensus.rs:115 | The proof-of-work check compares the `consensus_digest` field with `THRESHOLD`. The doc comment at lines 79-80 says the block hash is compared. | Test `bc_3_cant_verify_invalid_pow`: a mined child of genesis with extrinsic 5 and its digest set to 10. It is accepted whatever its hash, so the test's `!verify_sub_chain` fails. | `hash(header) < THRESHOLD`, which every mined child passes. | high; not executed | Consensus.DigestCheckIgnoresHash | Consensus.MinedChildVerifies |
| web3dev_blockchain_from_scratch/src/balances.rs:28-40 | `transfer` reads both balances first and writes the recipient last. The recipient's new balance was computed before the caller's debit. | `transfer(a, a, 10)` with `a` holding 10 leaves `a` with 20. | A transfer to oneself changes nothing, and the pair's total is kept. | medium; not executed | Balances.SelfTransferMints | Balances.IntendedConserves |

In the model:
- `Pallet.Transfer` keeps the written behaviour. `Balances.TransferredIntended` is the corrected
  transfer, and `Balances.IntendedAgreesBetweenTwo` proves it equal to the written one between
  two different accounts.
- The consensus check takes the proof-of-work test as a parameter. `DigestBelow` is the written
  check used by `VerifySubChainBasedOnState`, and `HashBelow` is the documented one.
- The signer keeps the written behaviour. `VerifyDkimEmail.SignIntended` is the corrected
  signer, and `VerifyDkimEmail.IntendedAgreesWhenUnlisted` proves that the two agree when
  DKIM-Signature is not listed.
- The checker keeps the written behaviour. `VerifyDkimEmail.VerifyIntended` is the corrected
  checker, and `VerifyDkimEmail.IntendedRoundTrip` proves that it accepts what the corrected
  signer produces. `VerifyDkimEmail.IntendedVerifiesTestMessage` shows that the test passes only
  when both halves are corrected.
